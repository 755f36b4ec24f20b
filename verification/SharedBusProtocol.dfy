/** The single-producer, multi-consumer telemetry bus of ipc_shared_bus.py as a machine of
    atomic steps. A call to pop_telemetry is an entry of `pops`; entries are stored and copied
    word by word. Shared indices are what the header holds (reduced modulo the ring size);
    `published` and `owner` are the unbounded histories they stand for. */
module SharedBusProtocol {
  import opened Circular

  datatype Word = Unsigned(u: nat) | Float(f: real)

  type Entry = seq<Word>

  /** write_telemetry: `stored` words of the new entry are in the slot; write_index moves last. */
  datatype Writer = Idle | Storing(entry: Entry, stored: nat)

  /** pop_telemetry, between its atomic actions. `r` is the local r_idx and `seen` the number
      of claims made when it was read (a history value, never consulted by a step). */
  datatype Pop =
    | LoopHead
    | ReadIndex(r: nat, seen: nat)
    | NotEmpty(r: nat, seen: nat)
    | Copying(r: nat, ticket: nat, partial: Entry)
    | Returned(ticket: nat, entry: Entry)
    | ReturnedNone

  datatype State = State(
    words: nat,
    slots: seq<Entry>,
    writeIndex: nat,
    readIndex: nat,
    writer: Writer,
    pops: seq<Pop>,
    published: seq<Entry>,
    owner: seq<nat>)

  datatype Step =
    | BeginWrite(entry: Entry)
    | StoreWord
    | Publish
    | Call
    | LoadRead(pop: nat)
    | LoadWrite(pop: nat)
    | CompareAndSwap(pop: nat)
    | CopyWord(pop: nat)
    | Return(pop: nat)

  function Ring(s: State): nat { |s.slots| }

  predicate WellFormed(s: State)
  {
    && Ring(s) > 0
    && s.writeIndex < Ring(s) && s.readIndex < Ring(s)
    && (forall k :: 0 <= k < Ring(s) ==> |s.slots[k]| == s.words)
    && (s.writer.Storing? ==> |s.writer.entry| == s.words && s.writer.stored <= s.words)
    && (forall p :: 0 <= p < |s.pops| ==> PopShape(s, s.pops[p]))
  }

  predicate PopShape(s: State, p: Pop)
  {
    match p
    case ReadIndex(r, _) => r < Ring(s)
    case NotEmpty(r, _) => r < Ring(s)
    case Copying(r, _, partial) => r < Ring(s) && |partial| <= s.words
    case _ => true
  }

  predicate Enabled(s: State, step: Step)
    requires WellFormed(s)
  {
    match step
    case BeginWrite(e) => s.writer.Idle? && |e| == s.words
    case StoreWord => s.writer.Storing? && s.writer.stored < s.words
    case Publish => s.writer.Storing? && s.writer.stored == s.words
    case Call => true
    case LoadRead(p) => p < |s.pops| && s.pops[p].LoopHead?
    case LoadWrite(p) => p < |s.pops| && s.pops[p].ReadIndex?
    case CompareAndSwap(p) => p < |s.pops| && s.pops[p].NotEmpty?
    case CopyWord(p) => p < |s.pops| && s.pops[p].Copying? && |s.pops[p].partial| < s.words
    case Return(p) => p < |s.pops| && s.pops[p].Copying? && |s.pops[p].partial| == s.words
  }

  function Do(s: State, step: Step): State
    requires WellFormed(s) && Enabled(s, step)
  {
    match step
    case BeginWrite(e) => s.(writer := Storing(e, 0))
    case StoreWord =>
      var k := s.writer.stored;
      s.(writer := s.writer.(stored := k + 1),
         slots := s.slots[s.writeIndex := s.slots[s.writeIndex][k := s.writer.entry[k]]])
    case Publish =>
      s.(writer := Idle, writeIndex := (s.writeIndex + 1) % Ring(s), published := s.published + [s.writer.entry])
    case Call => s.(pops := s.pops + [LoopHead])
    case LoadRead(p) => s.(pops := s.pops[p := ReadIndex(s.readIndex, |s.owner|)])
    case LoadWrite(p) =>
      var me := s.pops[p];
      s.(pops := s.pops[p := if me.r == s.writeIndex then ReturnedNone else NotEmpty(me.r, me.seen)])
    case CompareAndSwap(p) =>
      var me := s.pops[p];
      if s.readIndex == me.r
      then s.(readIndex := (me.r + 1) % Ring(s), pops := s.pops[p := Copying(me.r, |s.owner|, [])], owner := s.owner + [p])
      else s.(pops := s.pops[p := LoopHead])
    case CopyWord(p) =>
      var me := s.pops[p];
      s.(pops := s.pops[p := me.(partial := me.partial + [s.slots[me.r][|me.partial|]])])
    case Return(p) => s.(pops := s.pops[p := Returned(s.pops[p].ticket, s.pops[p].partial)])
  }

  predicate Initial(s: State)
  {
    && WellFormed(s)
    && s.writeIndex == 0 && s.readIndex == 0 && s.writer == Idle
    && s.pops == [] && s.published == [] && s.owner == []
  }

  /** What the bus leaves to its callers: the producer does not start on a slot that is unread
      or still being copied, and a compare-and-swap that succeeds finds something unread. */
  predicate Fair(s: State, step: Step)
    requires WellFormed(s) && Enabled(s, step)
  {
    match step
    case BeginWrite(_) =>
      && |s.published| - |s.owner| < Ring(s)
      && forall p :: 0 <= p < |s.pops| && s.pops[p].Copying? ==> |s.published| - s.pops[p].ticket < Ring(s)
    case CompareAndSwap(p) => s.readIndex == s.pops[p].r ==> |s.owner| < |s.published|
    case _ => true
  }

  lemma DoKeepsShape(s: State, step: Step)
    requires WellFormed(s) && Enabled(s, step)
    ensures WellFormed(Do(s, step))
  {
  }

  /** A run is any sequence of enabled steps. */
  ghost predicate IsRun(s: State, steps: seq<Step>)
    requires WellFormed(s)
    decreases |steps|
  {
    steps == [] ||
    (Enabled(s, steps[0]) && (DoKeepsShape(s, steps[0]); IsRun(Do(s, steps[0]), steps[1..])))
  }

  ghost function After(s: State, steps: seq<Step>): State
    requires WellFormed(s) && IsRun(s, steps)
    decreases |steps|
  {
    if steps == [] then s else (DoKeepsShape(s, steps[0]); After(Do(s, steps[0]), steps[1..]))
  }

  ghost predicate AlwaysFair(s: State, steps: seq<Step>)
    requires WellFormed(s) && IsRun(s, steps)
    decreases |steps|
  {
    steps == [] ||
    (Fair(s, steps[0]) && (DoKeepsShape(s, steps[0]); AlwaysFair(Do(s, steps[0]), steps[1..])))
  }

  // ---- the invariant ----

  /** The oldest ticket whose slot no store has touched since it was published. */
  function OldestIntact(s: State): int
  {
    |s.published| - Ring(s) + (if s.writer.Storing? then 1 else 0)
  }

  predicate SlotHolds(s: State, t: nat)
    requires WellFormed(s)
  {
    t < |s.published| && s.slots[Slot(t, Ring(s))] == s.published[t]
  }

  predicate PopOk(s: State, p: nat)
    requires WellFormed(s) && p < |s.pops|
  {
    match s.pops[p]
    case ReadIndex(r, seen) => seen <= |s.owner| && r == Slot(seen, Ring(s))
    case NotEmpty(r, seen) => seen <= |s.owner| && r == Slot(seen, Ring(s)) && seen < |s.published|
    case Copying(r, t, partial) =>
      && t < |s.owner| && s.owner[t] == p && r == Slot(t, Ring(s))
      && OldestIntact(s) <= t < |s.published| && partial <= s.published[t]
    case Returned(t, e) => t < |s.owner| && s.owner[t] == p && t < |s.published| && e == s.published[t]
    case _ => true
  }

  predicate HasTicket(s: State, p: nat, t: nat)
  {
    p < |s.pops| &&
    match s.pops[p]
    case Copying(_, u, _) => u == t
    case Returned(u, _) => u == t
    case _ => false
  }

  predicate Inv(s: State)
  {
    && WellFormed(s)
    && s.writeIndex == Slot(|s.published|, Ring(s))
    && s.readIndex == Slot(|s.owner|, Ring(s))
    && |s.owner| <= |s.published|
    && OldestIntact(s) <= |s.owner|
    && (forall t :: 0 <= t < |s.published| && OldestIntact(s) <= t ==> SlotHolds(s, t))
    && (s.writer.Storing? ==> s.slots[s.writeIndex][..s.writer.stored] == s.writer.entry[..s.writer.stored])
    && (forall p :: 0 <= p < |s.pops| ==> PopOk(s, p))
    && (forall t :: 0 <= t < |s.owner| ==> HasTicket(s, s.owner[t], t))
  }

  lemma StoreWordKeepsInv(s: State)
    requires Inv(s) && Enabled(s, StoreWord)
    ensures Inv(Do(s, StoreWord))
  {
    var s' := Do(s, StoreWord);
    DoKeepsShape(s, StoreWord);
    var w := |s.published|;
    forall t | 0 <= t < w && OldestIntact(s) <= t
      ensures SlotHolds(s', t)
    {
      assert SlotHolds(s, t);
      SlotInjective(t, w, Ring(s));
    }
    forall p | 0 <= p < |s.pops|
      ensures PopOk(s', p)
    {
      assert PopOk(s, p);
    }
  }

  lemma PublishKeepsInv(s: State)
    requires Inv(s) && Enabled(s, Publish)
    ensures Inv(Do(s, Publish))
  {
    var s' := Do(s, Publish);
    DoKeepsShape(s, Publish);
    SlotNext(|s.published|, Ring(s));
    forall t | 0 <= t < |s'.published| && OldestIntact(s') <= t
      ensures SlotHolds(s', t)
    {
      if t < |s.published| {
        assert SlotHolds(s, t);
      } else {
        assert s.slots[s.writeIndex] == s.slots[s.writeIndex][..s.words] == s.writer.entry;
      }
    }
    forall p | 0 <= p < |s.pops|
      ensures PopOk(s', p)
    {
      assert PopOk(s, p);
    }
  }

  lemma BeginWriteKeepsInv(s: State, e: Entry)
    requires Inv(s) && Enabled(s, BeginWrite(e)) && Fair(s, BeginWrite(e))
    ensures Inv(Do(s, BeginWrite(e)))
  {
    var s' := Do(s, BeginWrite(e));
    DoKeepsShape(s, BeginWrite(e));
    forall p | 0 <= p < |s.pops|
      ensures PopOk(s', p)
    {
      assert PopOk(s, p);
    }
    forall t | 0 <= t < |s.published| && OldestIntact(s') <= t
      ensures SlotHolds(s', t)
    {
      assert SlotHolds(s, t);
    }
  }

  lemma CallKeepsInv(s: State)
    requires Inv(s)
    ensures Inv(Do(s, Call))
  {
    var s' := Do(s, Call);
    forall p | 0 <= p < |s'.pops|
      ensures PopOk(s', p)
    {
      assert p < |s.pops| ==> PopOk(s, p);
    }
    forall t | 0 <= t < |s.owner|
      ensures HasTicket(s', s'.owner[t], t)
    {
      assert HasTicket(s, s.owner[t], t);
    }
    forall t | 0 <= t < |s.published| && OldestIntact(s') <= t
      ensures SlotHolds(s', t)
    {
      assert SlotHolds(s, t);
    }
  }

  /** With less than a lap since the index was read, an equal index means an equal counter: such
      a swap is always fair. */
  lemma SwapClaimsNextTicket(s: State, p: nat)
    requires Inv(s) && Enabled(s, CompareAndSwap(p)) && |s.owner| - s.pops[p].seen < Ring(s)
    ensures Fair(s, CompareAndSwap(p))
    ensures s.readIndex == s.pops[p].r ==> |s.owner| == s.pops[p].seen < |s.published|
  {
    assert PopOk(s, p);
    if s.pops[p].seen < |s.owner| {
      SlotInjective(s.pops[p].seen, |s.owner|, Ring(s));
    }
  }

  lemma SwapKeepsInv(s: State, p: nat)
    requires Inv(s) && Enabled(s, CompareAndSwap(p)) && Fair(s, CompareAndSwap(p))
    ensures Inv(Do(s, CompareAndSwap(p)))
  {
    var s' := Do(s, CompareAndSwap(p));
    DoKeepsShape(s, CompareAndSwap(p));
    assert PopOk(s, p);
    SlotNext(|s.owner|, Ring(s));
    forall q | 0 <= q < |s.pops|
      ensures PopOk(s', q)
    {
      assert PopOk(s, q);
    }
    forall t | 0 <= t < |s'.owner|
      ensures HasTicket(s', s'.owner[t], t)
    {
      assert t < |s.owner| ==> HasTicket(s, s.owner[t], t);
    }
    forall t | 0 <= t < |s.published| && OldestIntact(s') <= t
      ensures SlotHolds(s', t)
    {
      assert SlotHolds(s, t);
    }
  }

  predicate IsLocal(step: Step) { step.LoadRead? || step.LoadWrite? || step.CopyWord? || step.Return? }

  /** A step of one pop that touches only its own variables. */
  lemma LocalStepKeepsPop(s: State, step: Step)
    requires Inv(s) && Enabled(s, step) && IsLocal(step)
    ensures WellFormed(Do(s, step)) && PopOk(Do(s, step), step.pop)
  {
    DoKeepsShape(s, step);
    assert PopOk(s, step.pop);
    if s.pops[step.pop].Copying? { assert SlotHolds(s, s.pops[step.pop].ticket); }
  }

  lemma LocalStepKeepsInv(s: State, step: Step)
    requires Inv(s) && Enabled(s, step) && IsLocal(step)
    ensures Inv(Do(s, step))
  {
    var s' := Do(s, step);
    LocalStepKeepsPop(s, step);
    forall q | 0 <= q < |s.pops|
      ensures PopOk(s', q)
    {
      assert PopOk(s, q);
    }
    forall t | 0 <= t < |s.owner|
      ensures HasTicket(s', s.owner[t], t)
    {
      assert HasTicket(s, s.owner[t], t);
    }
    forall t | 0 <= t < |s.published| && OldestIntact(s') <= t
      ensures SlotHolds(s', t)
    {
      assert SlotHolds(s, t);
    }
  }

  lemma StepKeepsInv(s: State, step: Step)
    requires Inv(s) && Enabled(s, step) && Fair(s, step)
    ensures Inv(Do(s, step))
  {
    match step
    case BeginWrite(e) => BeginWriteKeepsInv(s, e);
    case StoreWord => StoreWordKeepsInv(s);
    case Publish => PublishKeepsInv(s);
    case Call => CallKeepsInv(s);
    case CompareAndSwap(p) => SwapKeepsInv(s, p);
    case _ => LocalStepKeepsInv(s, step);
  }

  lemma UnfairBreaksInv(s: State, step: Step)
    requires Inv(s) && Enabled(s, step) && !Fair(s, step)
    ensures !Inv(Do(s, step))
  {
    var s' := Do(s, step);
    if step.BeginWrite? && |s.published| - |s.owner| < Ring(s) {
      var p :| 0 <= p < |s.pops| && s.pops[p].Copying? && |s.published| - s.pops[p].ticket >= Ring(s);
      assert WellFormed(s') ==> !PopOk(s', p);
    }
  }

  /** Nothing weaker than fairness will do: it is exactly what each step needs. */
  lemma FairnessIsExact(s: State, step: Step)
    requires Inv(s) && Enabled(s, step)
    ensures Inv(Do(s, step)) <==> Fair(s, step)
  {
    if Fair(s, step) { StepKeepsInv(s, step); } else { UnfairBreaksInv(s, step); }
  }

  lemma {:induction false} RunKeepsInv(s: State, steps: seq<Step>)
    requires Inv(s) && IsRun(s, steps) && AlwaysFair(s, steps)
    ensures Inv(After(s, steps))
    ensures s.published <= After(s, steps).published && s.owner <= After(s, steps).owner
    decreases |steps|
  {
    if steps == [] {
    } else {
      StepKeepsInv(s, steps[0]);
      RunKeepsInv(Do(s, steps[0]), steps[1..]);
    }
  }

  /** Every pop that returned an entry returned the one published under its ticket. */
  ghost predicate ReturnsWhatWasWritten(s: State) {
    forall p :: 0 <= p < |s.pops| && s.pops[p].Returned? ==>
      s.pops[p].ticket < |s.published| && s.pops[p].entry == s.published[s.pops[p].ticket]
  }

  /** Claims are in write order without gaps, each by exactly one pop: ticket t belongs to
      owner[t] and to no other. */
  ghost predicate ClaimsAreExclusive(s: State) {
    && |s.owner| <= |s.published|
    && (forall t :: 0 <= t < |s.owner| ==> HasTicket(s, s.owner[t], t))
    && (forall p: nat, t: nat :: HasTicket(s, p, t) ==> t < |s.owner| && s.owner[t] == p)
  }

  lemma InvIsSound(s: State)
    requires Inv(s)
    ensures ReturnsWhatWasWritten(s) && ClaimsAreExclusive(s)
  {
    forall p: nat, t: nat | HasTicket(s, p, t)
      ensures t < |s.owner| && s.owner[t] == p
    {
      assert PopOk(s, p);
    }
    forall p | 0 <= p < |s.pops| && s.pops[p].Returned?
      ensures s.pops[p].ticket < |s.published| && s.pops[p].entry == s.published[s.pops[p].ticket]
    {
      assert PopOk(s, p);
    }
  }

  lemma InitialInv(s: State)
    requires Initial(s)
    ensures Inv(s)
  {
    SlotIdentity(0, Ring(s));
  }

  /** Over every fair interleaving of one producer with any number of consumers, pops are
      exclusive and first-in first-out, and nothing torn is returned. */
  lemma PopsAreExclusiveAndFifo(s: State, steps: seq<Step>)
    requires Initial(s) && IsRun(s, steps) && AlwaysFair(s, steps)
    ensures ReturnsWhatWasWritten(After(s, steps))
    ensures ClaimsAreExclusive(After(s, steps))
  {
    InitialInv(s);
    RunKeepsInv(s, steps);
    InvIsSound(After(s, steps));
  }

  /** The producer's half of fairness. */
  ghost predicate ProducerIsFair(s: State, steps: seq<Step>)
    requires WellFormed(s) && IsRun(s, steps)
    decreases |steps|
  {
    steps == [] ||
    ((steps[0].BeginWrite? ==> Fair(s, steps[0])) && (DoKeepsShape(s, steps[0]); ProducerIsFair(Do(s, steps[0]), steps[1..])))
  }

  /** At no moment of the run is a ticket claimed that nobody wrote, claimed twice, or returned
      with something else than was written. */
  ghost predicate AlwaysSound(s: State, steps: seq<Step>)
    requires WellFormed(s) && IsRun(s, steps)
    decreases |steps|
  {
    ReturnsWhatWasWritten(s) && ClaimsAreExclusive(s) &&
    (steps == [] || (DoKeepsShape(s, steps[0]); AlwaysSound(Do(s, steps[0]), steps[1..])))
  }

  /** With a fair producer, a run is sound throughout exactly when no swap succeeds on a drained
      ring. */
  lemma {:induction false} SoundExactlyWhenFair(s: State, steps: seq<Step>)
    requires Inv(s) && IsRun(s, steps) && ProducerIsFair(s, steps)
    ensures AlwaysSound(s, steps) <==> AlwaysFair(s, steps)
    decreases |steps|
  {
    hide Do, PopOk, SlotHolds, HasTicket, ReturnsWhatWasWritten, ClaimsAreExclusive;
    InvIsSound(s);
    if steps != [] {
      DoKeepsShape(s, steps[0]);
      if Fair(s, steps[0]) {
        StepKeepsInv(s, steps[0]);
        SoundExactlyWhenFair(Do(s, steps[0]), steps[1..]);
      } else {
        OnlyALapClaimsTheUnwritten(s, steps[0].pop);
      }
    }
  }

  /** pop_telemetry cannot tell a full ring from an empty one: with a fresh read index it
      returns None exactly when nothing is unread or when all slots are. */
  lemma NoneMeansEmptyOrFull(s: State, p: nat)
    requires Inv(s) && Enabled(s, LoadWrite(p)) && s.pops[p].seen == |s.owner|
    ensures Do(s, LoadWrite(p)).pops[p] == ReturnedNone
       <==> |s.published| - |s.owner| == 0 || |s.published| - |s.owner| == Ring(s)
  {
    assert PopOk(s, p);
    var r, w := |s.owner|, |s.published|;
    if w == r + Ring(s) {
      SlotPeriodic(r, Ring(s));
    } else if r < w {
      SlotInjective(r, w, Ring(s));
    }
  }

  /** A compare-and-swap is unfair exactly when it succeeds on a drained ring, claiming an entry
      nobody wrote; and then the read index has gone round since it was read. */
  lemma OnlyALapClaimsTheUnwritten(s: State, p: nat)
    requires Inv(s) && Enabled(s, CompareAndSwap(p))
    ensures !Fair(s, CompareAndSwap(p)) <==> s.readIndex == s.pops[p].r && |s.owner| == |s.published|
    ensures !Fair(s, CompareAndSwap(p)) ==> |s.owner| - s.pops[p].seen >= Ring(s) && !ClaimsAreExclusive(Do(s, CompareAndSwap(p)))
  {
    if |s.owner| - s.pops[p].seen < Ring(s) { SwapClaimsNextTicket(s, p); }
  }

  // ---- runs that show the two failures, on every ring ----

  ghost predicate Leads(s: State, steps: seq<Step>, e: State) {
    WellFormed(s) && IsRun(s, steps) && After(s, steps) == e
  }

  lemma {:induction false} Compose(s: State, xs: seq<Step>, m: State, ys: seq<Step>, e: State)
    requires Leads(s, xs, m) && Leads(m, ys, e)
    ensures Leads(s, xs + ys, e)
    ensures AlwaysFair(s, xs + ys) <==> AlwaysFair(s, xs) && AlwaysFair(m, ys)
    decreases |xs|
  {
    if xs == [] {
      assert xs + ys == ys;
    } else {
      DoKeepsShape(s, xs[0]);
      assert (xs + ys)[0] == xs[0] && (xs + ys)[1..] == xs[1..] + ys;
      Compose(Do(s, xs[0]), xs[1..], m, ys, e);
    }
  }

  lemma Then(s: State, xs: seq<Step>, m: State, step: Step) returns (steps: seq<Step>)
    requires Leads(s, xs, m) && WellFormed(m) && Enabled(m, step)
    ensures Leads(s, steps, Do(m, step))
    ensures AlwaysFair(s, steps) <==> AlwaysFair(s, xs) && Fair(m, step)
    ensures steps == xs + [step]
  {
    DoKeepsShape(m, step);
    var one := [step];
    assert one[0] == step && one[1..] == [];
    assert IsRun(Do(m, step), []) && After(Do(m, step), []) == Do(m, step) && AlwaysFair(Do(m, step), []);
    assert Leads(m, one, Do(m, step));
    Compose(s, xs, m, one, Do(m, step));
    steps := xs + one;
  }

  /** The words of an entry, stored one by one. */
  lemma {:induction false} StoreAll(s: State, e: Entry, k: nat) returns (steps: seq<Step>, t: State)
    requires Inv(s) && s.writer == Storing(e, 0) && k <= s.words
    ensures Leads(s, steps, t) && AlwaysFair(s, steps) && Inv(t) && t.writer == Storing(e, k)
    ensures t == s.(writer := t.writer, slots := t.slots) && Ring(t) == Ring(s)
  {
    if k == 0 {
      steps, t := [], s;
    } else {
      steps, t := StoreAll(s, e, k - 1);
      StepKeepsInv(t, StoreWord);
      steps := Then(s, steps, t, StoreWord);
      t := Do(t, StoreWord);
    }
  }

  /** A whole write_telemetry. */
  lemma WriteEntry(s: State, e: Entry) returns (steps: seq<Step>, t: State)
    requires Inv(s) && Enabled(s, BeginWrite(e)) && Fair(s, BeginWrite(e))
    ensures Leads(s, steps, t) && AlwaysFair(s, steps) && Inv(t)
    ensures t == s.(writeIndex := t.writeIndex, slots := t.slots, published := s.published + [e]) && Ring(t) == Ring(s)
  {
    StepKeepsInv(s, BeginWrite(e));
    var begun := Do(s, BeginWrite(e));
    var more, stored := StoreAll(begun, e, s.words);
    StepKeepsInv(stored, Publish);
    steps := Then(s, [], s, BeginWrite(e));
    Compose(s, steps, begun, more, stored);
    steps := Then(s, steps + more, stored, Publish);
    t := Do(stored, Publish);
  }

  /** A claimed entry, copied word by word and returned, whatever the slot holds. */
  lemma {:induction false} CopyAll(s: State, p: nat, k: nat) returns (steps: seq<Step>, t: State)
    requires WellFormed(s) && p < |s.pops| && s.pops[p].Copying? && s.pops[p].partial == [] && k <= s.words
    ensures Leads(s, steps, t) && AlwaysFair(s, steps)
    ensures t == s.(pops := s.pops[p := s.pops[p].(partial := s.slots[s.pops[p].r][..k])])
  {
    if k == 0 {
      steps, t := [], s;
      assert s.pops[p].(partial := s.slots[s.pops[p].r][..0]) == s.pops[p];
    } else {
      steps, t := CopyAll(s, p, k - 1);
      steps := Then(s, steps, t, CopyWord(p));
      t := Do(t, CopyWord(p));
      var whole := s.slots[s.pops[p].r];
      assert whole[..k - 1] + [whole[k - 1]] == whole[..k];
    }
  }

  lemma CopyAndReturn(s: State, p: nat) returns (steps: seq<Step>, t: State)
    requires WellFormed(s) && p < |s.pops| && s.pops[p].Copying? && s.pops[p].partial == []
    ensures Leads(s, steps, t) && AlwaysFair(s, steps)
    ensures t == s.(pops := s.pops[p := Returned(s.pops[p].ticket, s.slots[s.pops[p].r])])
  {
    var copied: State;
    steps, copied := CopyAll(s, p, s.words);
    assert s.slots[s.pops[p].r][..s.words] == s.slots[s.pops[p].r];
    steps := Then(s, steps, copied, Return(p));
    t := Do(copied, Return(p));
  }

  /** A pop_telemetry up to the point where it has read both indices. */
  lemma ReadIndices(s: State) returns (steps: seq<Step>, t: State)
    requires Inv(s)
    ensures Leads(s, steps, t) && AlwaysFair(s, steps) && Inv(t)
    ensures t == s.(pops := s.pops + [if s.readIndex == s.writeIndex then ReturnedNone else NotEmpty(s.readIndex, |s.owner|)])
  {
    var p := |s.pops|;
    StepKeepsInv(s, Call);
    var called := Do(s, Call);
    StepKeepsInv(called, LoadRead(p));
    var loaded := Do(called, LoadRead(p));
    StepKeepsInv(loaded, LoadWrite(p));
    steps := Then(s, [], s, Call);
    steps := Then(s, steps, called, LoadRead(p));
    steps := Then(s, steps, loaded, LoadWrite(p));
    t := Do(loaded, LoadWrite(p));
  }

  /** A whole pop_telemetry that nothing interrupts. */
  lemma PopEntry(s: State) returns (steps: seq<Step>, t: State)
    requires Inv(s) && |s.owner| < |s.published| < |s.owner| + Ring(s)
    ensures Leads(s, steps, t) && AlwaysFair(s, steps) && Inv(t)
    ensures t == s.(readIndex := t.readIndex, owner := s.owner + [|s.pops|],
                    pops := s.pops + [Returned(|s.owner|, s.published[|s.owner|])])
  {
    var p := |s.pops|;
    SlotInjective(|s.owner|, |s.published|, Ring(s));
    var read: State, more: seq<Step>;
    steps, read := ReadIndices(s);
    assert SlotHolds(s, |s.owner|);
    var claimed := Do(read, CompareAndSwap(p));
    steps := Then(s, steps, read, CompareAndSwap(p));
    StepKeepsInv(read, CompareAndSwap(p));
    more, t := CopyAndReturn(claimed, p);
    Compose(s, steps, claimed, more, t);
    RunKeepsInv(claimed, more);
    steps := steps + more;
  }

  lemma {:induction false} Fill(s: State, e: Entry, n: nat) returns (steps: seq<Step>, t: State)
    requires Initial(s) && |e| == s.words && n <= Ring(s)
    ensures Leads(s, steps, t) && AlwaysFair(s, steps) && Inv(t) && Ring(t) == Ring(s) && t.words == s.words
    ensures |t.published| == n && t.owner == [] && t.pops == [] && t.writer == Idle
  {
    InitialInv(s);
    if n == 0 {
      steps, t := [], s;
    } else {
      var most, before := Fill(s, e, n - 1);
      var more: seq<Step>;
      more, t := WriteEntry(before, e);
      Compose(s, most, before, more, t);
      steps := most + more;
    }
  }

  /** On every ring: a producer that fills it leaves a state in which pop_telemetry returns None
      with everything unread. */
  lemma FullBusLooksEmpty(s: State, e: Entry) returns (steps: seq<Step>, t: State)
    requires Initial(s) && |e| == s.words
    ensures Leads(s, steps, t) && AlwaysFair(s, steps)
    ensures |t.published| == Ring(s) && t.owner == [] && t.pops == [ReturnedNone]
  {
    var filled: State, more: seq<Step>;
    steps, filled := Fill(s, e, Ring(s));
    SlotPeriodic(0, Ring(s));
    more, t := ReadIndices(filled);
    Compose(s, steps, filled, more, t);
    steps := steps + more;
  }

  /** One consumer sleeps before its swap while another reads n entries as they are written. */
  lemma {:induction false} SleepThrough(s: State, first: Entry, other: Entry, n: nat) returns (steps: seq<Step>, t: State)
    requires Initial(s) && Ring(s) >= 2 && |first| == |other| == s.words && n >= 1
    ensures Leads(s, steps, t) && AlwaysFair(s, steps) && Inv(t) && Ring(t) == Ring(s) && t.words == s.words
    ensures |t.published| == |t.owner| == n && t.published[0] == first && t.writer == Idle
    ensures |t.pops| >= 2 && t.pops[0] == NotEmpty(0, 0) && t.pops[1] == Returned(0, first)
    ensures forall p :: 0 <= p < |t.pops| ==> !t.pops[p].Copying?
  {
    var more: seq<Step>, mid: State;
    if n == 1 {
      InitialInv(s);
      steps, mid := WriteEntry(s, first);
      SlotIdentity(0, Ring(s)); SlotIdentity(1, Ring(s));
      var asleep: State;
      more, asleep := ReadIndices(mid);
      Compose(s, steps, mid, more, asleep);
      steps, mid := steps + more, asleep;
    } else {
      var before: State;
      steps, before := SleepThrough(s, first, other, n - 1);
      more, mid := WriteEntry(before, other);
      Compose(s, steps, before, more, mid);
      steps := steps + more;
    }
    more, t := PopEntry(mid);
    Compose(s, steps, mid, more, t);
    steps := steps + more;
  }

  /** On every ring of two or more slots: a fair run brings a sleeping consumer a lap behind; its
      swap, the one unfair step, claims a ticket nobody wrote, and it returns entry 0, which
      another consumer has already returned. */
  lemma LapReturnsAnEntryTwice(s: State, first: Entry, other: Entry) returns (steps: seq<Step>, lapped: State, rest: seq<Step>, t: State)
    requires Initial(s) && Ring(s) >= 2 && |first| == |other| == s.words
    ensures Leads(s, steps, lapped) && AlwaysFair(s, steps)
    ensures Leads(lapped, rest, t) && rest != [] && rest[0] == CompareAndSwap(0) && !Fair(lapped, rest[0])
    ensures |t.published| == Ring(s) && |t.pops| >= 2
    ensures t.pops[1] == Returned(0, first) && t.pops[0] == Returned(Ring(s), first)
  {
    steps, lapped := SleepThrough(s, first, other, Ring(s));
    SlotIdentity(0, Ring(s)); SlotPeriodic(0, Ring(s));
    assert SlotHolds(lapped, 0);
    var claimed := Do(lapped, CompareAndSwap(0));
    rest := Then(lapped, [], lapped, CompareAndSwap(0));
    var more: seq<Step>;
    more, t := CopyAndReturn(claimed, 0);
    Compose(lapped, rest, claimed, more, t);
    assert rest == [CompareAndSwap(0)];
    rest := rest + more;
  }
}
