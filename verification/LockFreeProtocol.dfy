/** The multi-producer, single-consumer ring of lockfree_fusion_ring_buffer.py as a
    machine of atomic steps.

    A call to push is identified by the ticket it drew from write_sequence, so the calls in
    flight are the entries of `calls`, and any number of threads may have calls in flight.
    A record is the list of words that push stores one at a time; a reader can therefore
    overtake a writer in the middle of a record. */
module LockFreeProtocol {
  import opened Circular

  /** One store of the writer: an int32, float64 or bool field. */
  datatype Word = IntWord(i: int) | RealWord(r: real) | BoolWord(b: bool)

  type Record = seq<Word>

  const EMPTY := 0
  const WRITING := 1
  const READY := 2

  /** Where a push call stands: ticket drawn, capacity check passed, status set to WRITING
      with `stored` words written, status set to READY. */
  datatype Progress = Claimed | Guarded | Storing(stored: nat) | Finished

  datatype Call = Call(record: Record, progress: Progress)

  /** The single consumer. `batch` holds the records already copied by this pop_batch,
      `base` the read_ptr passed to the reader, `partial` the words copied from the slot
      in hand. Closing is between the reader's return and the update of read_ptr. */
  datatype Consumer =
    | Idle
    | Scanning(base: nat, count: int, batch: seq<Record>)
    | Copying(base: nat, count: int, batch: seq<Record>, partial: Record)
    | Closing(base: nat, batch: seq<Record>)

  datatype State = State(
    words: nat,
    slots: seq<Record>,
    status: seq<int>,
    readPtr: int,
    drops: nat,
    calls: seq<Call>,
    consumer: Consumer,
    delivered: seq<Record>)

  datatype Step =
    | Claim(record: Record)
    | Guard(ticket: nat)
    | MarkWriting(ticket: nat)
    | StoreWord(ticket: nat)
    | MarkReady(ticket: nat)
    | BeginPop(maxCount: int)
    | CheckSlot
    | CopyWord
    | MarkEmpty
    | EndPop

  function Capacity(s: State): nat { |s.slots| }

  /** The consumer's private cursor curr_ptr; read_ptr itself lags until the batch ends. */
  function Cursor(s: State): int
  {
    if s.consumer.Idle? then s.readPtr else s.consumer.base + |s.consumer.batch|
  }

  predicate WellFormed(s: State)
  {
    && Capacity(s) > 0
    && |s.status| == Capacity(s)
    && (forall k :: 0 <= k < Capacity(s) ==> |s.slots[k]| == s.words)
    && (forall t :: 0 <= t < |s.calls| ==> |s.calls[t].record| == s.words)
    && (forall t :: 0 <= t < |s.calls| && s.calls[t].progress.Storing? ==> s.calls[t].progress.stored <= s.words)
    && (s.consumer.Copying? ==> |s.consumer.partial| <= s.words)
  }

  predicate AtProgress(s: State, t: nat, p: Progress)
  {
    t < |s.calls| && s.calls[t].progress == p
  }

  predicate Enabled(s: State, step: Step)
    requires WellFormed(s)
  {
    match step
    case Claim(r) => |r| == s.words
    case Guard(t) => AtProgress(s, t, Claimed)
    case MarkWriting(t) => AtProgress(s, t, Guarded)
    case StoreWord(t) => t < |s.calls| && s.calls[t].progress.Storing? && s.calls[t].progress.stored < s.words
    case MarkReady(t) => AtProgress(s, t, Storing(s.words))
    case BeginPop(_) => s.consumer.Idle? && s.readPtr >= 0
    case CheckSlot => s.consumer.Scanning?
    case CopyWord => s.consumer.Copying? && |s.consumer.partial| < s.words
    case MarkEmpty => s.consumer.Copying? && |s.consumer.partial| == s.words
    case EndPop => s.consumer.Closing?
  }

  function Advance(s: State, t: nat, p: Progress): State
    requires t < |s.calls|
  {
    s.(calls := s.calls[t := s.calls[t].(progress := p)])
  }

  /** The effect of one atomic step. */
  function Do(s: State, step: Step): State
    requires WellFormed(s) && Enabled(s, step)
  {
    var capacity := Capacity(s);
    match step
    case Claim(r) => s.(calls := s.calls + [Call(r, Claimed)])
    case Guard(t) =>
      var s1 := Advance(s, t, Guarded);
      if t - s.readPtr >= capacity
      then s1.(drops := s.drops + 1, readPtr := t - capacity + 1)
      else s1
    case MarkWriting(t) =>
      Advance(s, t, Storing(0)).(status := s.status[Slot(t, capacity) := WRITING])
    case StoreWord(t) =>
      var k := s.calls[t].progress.stored;
      var slot := Slot(t, capacity);
      Advance(s, t, Storing(k + 1)).(slots := s.slots[slot := s.slots[slot][k := s.calls[t].record[k]]])
    case MarkReady(t) =>
      Advance(s, t, Finished).(status := s.status[Slot(t, capacity) := READY])
    case BeginPop(m) =>
      s.(consumer := Scanning(s.readPtr, if m < 128 then m else 128, []))
    case CheckSlot =>
      if |s.consumer.batch| < s.consumer.count && s.status[Slot(Cursor(s), capacity)] == READY
      then s.(consumer := Copying(s.consumer.base, s.consumer.count, s.consumer.batch, []))
      else s.(consumer := Closing(s.consumer.base, s.consumer.batch))
    case CopyWord =>
      var p := s.consumer.partial;
      s.(consumer := s.consumer.(partial := p + [s.slots[Slot(Cursor(s), capacity)][|p|]]))
    case MarkEmpty =>
      s.(status := s.status[Slot(Cursor(s), capacity) := EMPTY],
         consumer := Scanning(s.consumer.base, s.consumer.count, s.consumer.batch + [s.consumer.partial]))
    case EndPop =>
      s.(readPtr := s.readPtr + |s.consumer.batch|,
         delivered := s.delivered + s.consumer.batch,
         consumer := Idle)
  }

  predicate Initial(s: State)
  {
    && WellFormed(s)
    && s.readPtr == 0 && s.drops == 0 && s.calls == [] && s.consumer == Idle && s.delivered == []
    && forall k :: 0 <= k < |s.status| ==> s.status[k] == EMPTY
  }

  /** The overflow branch of push (line 212) is not taken by this step. */
  predicate Unsaturated(s: State, step: Step)
  {
    step.Guard? ==> step.ticket - s.readPtr < Capacity(s)
  }

  lemma DoKeepsShape(s: State, step: Step)
    requires WellFormed(s) && Enabled(s, step)
    ensures WellFormed(Do(s, step))
  {
  }

  /** A run is any sequence of enabled steps: every interleaving is one. */
  ghost predicate IsRun(s: State, steps: seq<Step>)
    requires WellFormed(s)
    decreases |steps|
  {
    steps == [] ||
    (Enabled(s, steps[0]) && (DoKeepsShape(s, steps[0]); IsRun(Do(s, steps[0]), steps[1..])))
  }

  ghost function After(s: State, steps: seq<Step>): State
    requires WellFormed(s) && IsRun(s, steps)
    decreases |steps|
  {
    if steps == [] then s else (DoKeepsShape(s, steps[0]); After(Do(s, steps[0]), steps[1..]))
  }

  ghost predicate NeverSaturated(s: State, steps: seq<Step>)
    requires WellFormed(s) && IsRun(s, steps)
    decreases |steps|
  {
    steps == [] ||
    (Unsaturated(s, steps[0]) && (DoKeepsShape(s, steps[0]); NeverSaturated(Do(s, steps[0]), steps[1..])))
  }

  // ---- the invariant of unsaturated runs ----

  function Records(calls: seq<Call>): (r: seq<Record>)
    ensures |r| == |calls|
    ensures forall i :: 0 <= i < |r| ==> r[i] == calls[i].record
  {
    seq(|calls|, i requires 0 <= i < |calls| => calls[i].record)
  }

  /** The status a slot must show while ticket t is the one entitled to it. */
  function StatusFor(s: State, t: nat): int
  {
    if t >= |s.calls| then EMPTY
    else match s.calls[t].progress
      case Claimed => EMPTY
      case Guarded => EMPTY
      case Storing(_) => WRITING
      case Finished => READY
  }

  /** How many words of ticket t are in its slot. */
  function StoredWords(s: State, t: nat): nat
    requires t < |s.calls|
  {
    match s.calls[t].progress
    case Claimed => 0
    case Guarded => 0
    case Storing(k) => k
    case Finished => s.words
  }

  predicate TicketOk(s: State, t: nat)
    requires WellFormed(s)
  {
    && s.status[Slot(t, Capacity(s))] == StatusFor(s, t)
    && (t < |s.calls| ==> s.slots[Slot(t, Capacity(s))][..StoredWords(s, t)] == s.calls[t].record[..StoredWords(s, t)])
  }

  /** Copied so far by the consumer: everything delivered, the batch, and the record in hand. */
  function Taken(s: State): seq<Record>
  {
    if s.consumer.Idle? then s.delivered else s.delivered + s.consumer.batch
  }

  predicate Inv(s: State)
  {
    && WellFormed(s)
    && s.drops == 0
    && 0 <= s.readPtr == |s.delivered|
    && (!s.consumer.Idle? ==> s.consumer.base == s.readPtr)
    && Cursor(s) <= |s.calls|
    // tickets behind the cursor are finished, tickets beyond the window are only claimed
    && (forall t :: 0 <= t < Cursor(s) ==> s.calls[t].progress == Finished)
    && (forall t :: s.readPtr + Capacity(s) <= t < |s.calls| ==> s.calls[t].progress == Claimed)
    && (forall t :: Cursor(s) <= t < Cursor(s) + Capacity(s) ==> TicketOk(s, t))
    && Taken(s) == Records(s.calls)[..Cursor(s)]
    && (s.consumer.Copying? ==>
          AtProgress(s, Cursor(s), Finished) && s.consumer.partial <= s.calls[Cursor(s)].record)
  }

  /** A push that is not the overflow branch touches no slot but its own. */
  lemma ClaimKeepsInv(s: State, r: Record)
    requires Inv(s) && Enabled(s, Claim(r))
    ensures Inv(Do(s, Claim(r)))
  {
    var s' := Do(s, Claim(r));
    DoKeepsShape(s, Claim(r));
    forall t | Cursor(s) <= t < Cursor(s) + Capacity(s)
      ensures TicketOk(s', t)
    {
      assert TicketOk(s, t);
    }
    assert Records(s'.calls)[..Cursor(s)] == Records(s.calls)[..Cursor(s)];
  }

  lemma AdvanceKeepsRecords(s: State, t: nat, p: Progress)
    requires t < |s.calls|
    ensures Records(Advance(s, t, p).calls) == Records(s.calls)
  {
  }

  predicate IsOwnStep(step: Step) { step.Guard? || step.MarkWriting? || step.StoreWord? || step.MarkReady? }

  lemma OwnStepMovesTicket(s: State, step: Step)
    requires Inv(s) && Enabled(s, step) && Unsaturated(s, step) && IsOwnStep(step)
    ensures WellFormed(Do(s, step)) && TicketOk(Do(s, step), step.ticket)
  {
    DoKeepsShape(s, step);
    assert TicketOk(s, step.ticket);
  }

  lemma OwnStepKeepsTicket(s: State, step: Step, t: nat)
    requires Inv(s) && Enabled(s, step) && Unsaturated(s, step) && IsOwnStep(step)
    requires Cursor(s) <= t < Cursor(s) + Capacity(s) && t != step.ticket
    ensures WellFormed(Do(s, step)) && TicketOk(Do(s, step), t)
  {
    var mine := step.ticket;
    DoKeepsShape(s, step);
    assert TicketOk(s, t);
    if t < mine { SlotInjective(t, mine, Capacity(s)); } else { SlotInjective(mine, t, Capacity(s)); }
    assert Slot(t, Capacity(s)) != Slot(mine, Capacity(s));
  }

  lemma OwnStepKeepsInv(s: State, step: Step)
    requires Inv(s) && Enabled(s, step) && Unsaturated(s, step) && IsOwnStep(step)
    ensures Inv(Do(s, step))
  {
    var s' := Do(s, step);
    var mine := step.ticket;
    DoKeepsShape(s, step);
    AdvanceKeepsRecords(s, mine, s'.calls[mine].progress);
    assert s'.calls == Advance(s, mine, s'.calls[mine].progress).calls;
    forall t | Cursor(s) <= t < Cursor(s) + Capacity(s)
      ensures TicketOk(s', t)
    {
      if t == mine { OwnStepMovesTicket(s, step); } else { OwnStepKeepsTicket(s, step, t); }
    }
  }

  /** The consumer reads READY exactly at a finished ticket, so it never passes over one. */
  lemma ReadyMeansFinished(s: State)
    requires Inv(s) && s.consumer.Scanning?
    ensures s.status[Slot(Cursor(s), Capacity(s))] == READY <==> AtProgress(s, Cursor(s), Finished)
  {
    assert TicketOk(s, Cursor(s));
  }

  lemma SameSlotsSameTickets(s: State, s': State)
    requires Inv(s) && WellFormed(s')
    requires s'.slots == s.slots && s'.status == s.status && s'.calls == s.calls && s'.words == s.words
    ensures forall t :: Cursor(s) <= t < Cursor(s) + Capacity(s) ==> TicketOk(s', t)
  {
    forall t | Cursor(s) <= t < Cursor(s) + Capacity(s)
      ensures TicketOk(s', t)
    {
      assert TicketOk(s, t);
    }
  }

  lemma CheckKeepsInv(s: State, step: Step)
    requires Inv(s) && Enabled(s, step) && (step.BeginPop? || step.CheckSlot?)
    ensures Inv(Do(s, step))
  {
    DoKeepsShape(s, step);
    SameSlotsSameTickets(s, Do(s, step));
    if step.CheckSlot? { ReadyMeansFinished(s); }
  }

  lemma CopyKeepsInv(s: State)
    requires Inv(s) && Enabled(s, CopyWord)
    ensures Inv(Do(s, CopyWord))
  {
    DoKeepsShape(s, CopyWord);
    SameSlotsSameTickets(s, Do(s, CopyWord));
    assert TicketOk(s, Cursor(s));
  }

  lemma EndPopKeepsInv(s: State)
    requires Inv(s) && Enabled(s, EndPop)
    ensures Inv(Do(s, EndPop))
  {
    DoKeepsShape(s, EndPop);
    SameSlotsSameTickets(s, Do(s, EndPop));
  }

  lemma MarkEmptyKeepsSlots(s: State, t: nat)
    requires Inv(s) && Enabled(s, MarkEmpty) && Cursor(s) < t <= Cursor(s) + Capacity(s)
    ensures WellFormed(Do(s, MarkEmpty)) && TicketOk(Do(s, MarkEmpty), t)
  {
    var c := Cursor(s);
    if t < c + Capacity(s) {
      assert TicketOk(s, t);
      SlotInjective(c, t, Capacity(s));
    } else {
      SlotPeriodic(c, Capacity(s));
      assert StatusFor(s, t) == EMPTY;
    }
  }

  lemma MarkEmptyKeepsInv(s: State)
    requires Inv(s) && Enabled(s, MarkEmpty)
    ensures Inv(Do(s, MarkEmpty))
  {
    var s' := Do(s, MarkEmpty);
    var c := Cursor(s);
    DoKeepsShape(s, MarkEmpty);
    assert s.consumer.partial == s.calls[c].record;
    assert Taken(s') == Records(s.calls)[..c + 1] by {
      assert Taken(s') == Taken(s) + [s.consumer.partial];
    }
    forall t | c + 1 <= t < c + 1 + Capacity(s)
      ensures TicketOk(s', t)
    {
      MarkEmptyKeepsSlots(s, t);
    }
  }

  lemma StepKeepsInv(s: State, step: Step)
    requires Inv(s) && Enabled(s, step) && Unsaturated(s, step)
    ensures Inv(Do(s, step))
  {
    match step
    case Claim(r) => ClaimKeepsInv(s, r);
    case MarkEmpty => MarkEmptyKeepsInv(s);
    case EndPop => EndPopKeepsInv(s);
    case Guard(_) => OwnStepKeepsInv(s, step);
    case MarkWriting(_) => OwnStepKeepsInv(s, step);
    case StoreWord(_) => OwnStepKeepsInv(s, step);
    case MarkReady(_) => OwnStepKeepsInv(s, step);
    case CopyWord => CopyKeepsInv(s);
    case _ => CheckKeepsInv(s, step);
  }

  /** The records pushed in a run, in ticket order. */
  function Pushed(steps: seq<Step>): seq<Record>
  {
    if steps == [] then []
    else (if steps[0].Claim? then [steps[0].record] else []) + Pushed(steps[1..])
  }

  lemma StepRecords(s: State, step: Step)
    requires WellFormed(s) && Enabled(s, step)
    ensures Records(Do(s, step).calls) == Records(s.calls) + (if step.Claim? then [step.record] else [])
  {
  }

  lemma {:induction false} RunKeepsInv(s: State, steps: seq<Step>)
    requires Inv(s) && IsRun(s, steps) && NeverSaturated(s, steps)
    ensures Inv(After(s, steps))
    ensures Records(After(s, steps).calls) == Records(s.calls) + Pushed(steps)
    decreases |steps|
  {
    hide TicketOk, Do, Enabled, Unsaturated;
    if steps == [] {
    } else {
      var mid, rest := Do(s, steps[0]), steps[1..];
      StepKeepsInv(s, steps[0]);
      RunKeepsInv(mid, rest);
      StepRecords(s, steps[0]);
      var own := if steps[0].Claim? then [steps[0].record] else [];
      assert Records(mid.calls) + Pushed(rest) == Records(s.calls) + (own + Pushed(rest));
    }
  }

  lemma InitialInv(s: State)
    requires Initial(s)
    ensures Inv(s)
  {
    forall t | 0 <= t < Capacity(s)
      ensures TicketOk(s, t)
    {
      assert StatusFor(s, t) == EMPTY;
    }
  }

  lemma DeliveredInOrder(s: State)
    requires Inv(s)
    ensures |s.delivered| <= |s.calls| && s.delivered == Records(s.calls)[..|s.delivered|]
    ensures forall t :: 0 <= t < |s.delivered| ==> s.calls[t].progress == Finished
  {
    assert s.delivered == Taken(s)[..|s.delivered|];
  }

  lemma StepDrops(s: State, step: Step)
    requires WellFormed(s) && Enabled(s, step)
    ensures Do(s, step).drops == s.drops + if Unsaturated(s, step) then 0 else 1
  {
  }

  /** The drop counter moves exactly when some push meets a full ring. */
  lemma {:induction false} DropsCountSaturation(s: State, steps: seq<Step>)
    requires WellFormed(s) && IsRun(s, steps)
    ensures After(s, steps).drops >= s.drops
    ensures After(s, steps).drops == s.drops <==> NeverSaturated(s, steps)
    decreases |steps|
  {
    if steps != [] {
      DoKeepsShape(s, steps[0]);
      StepDrops(s, steps[0]);
      hide Do, Enabled, Unsaturated, WellFormed;
      DropsCountSaturation(Do(s, steps[0]), steps[1..]);
    }
  }

  /** The records handed out are the first ones pushed: in ticket order, whole, none twice, none
      skipped, and none dropped. Each had been completely written. */
  ghost predicate DeliversExactlyOnce(e: State, pushed: seq<Record>) {
    && e.drops == 0
    && |e.delivered| <= |pushed| == |e.calls|
    && e.delivered == pushed[..|e.delivered|]
    && forall t :: 0 <= t < |e.delivered| ==> e.calls[t].progress == Finished
  }

  /** Whatever the interleaving of producers and consumer, delivery is exactly-once if no push
      meets a full ring, and only then. */
  lemma ExactlyOnce(s: State, steps: seq<Step>)
    requires Initial(s) && IsRun(s, steps)
    ensures DeliversExactlyOnce(After(s, steps), Pushed(steps)) <==> NeverSaturated(s, steps)
  {
    DropsCountSaturation(s, steps);
    if NeverSaturated(s, steps) {
      InitialInv(s);
      RunKeepsInv(s, steps);
      DeliveredInOrder(After(s, steps));
      assert Records(s.calls) + Pushed(steps) == Pushed(steps);
    }
  }

  /** Where a pop_batch(m) that is still under way stands. */
  ghost predicate Popping(s: State, m: int) {
    match s.consumer
    case Idle => false
    case Scanning(_, count, batch) => IsRequest(count, m) && (|batch| == 0 || |batch| <= count)
    case Copying(_, count, batch, _) => IsRequest(count, m) && |batch| < count
    case Closing(_, batch) => (|batch| == 0 || |batch| <= m) && |batch| <= 128
  }

  ghost predicate IsRequest(count: int, m: int) { count <= m && count <= 128 && (count == m || count == 128) }

  lemma StepKeepsPopping(s: State, step: Step, m: int)
    requires WellFormed(s) && Enabled(s, step) && Popping(s, m) && step != EndPop
    ensures Popping(Do(s, step), m)
  {
  }

  lemma {:induction false} RunKeepsPopping(s: State, steps: seq<Step>, m: int)
    requires WellFormed(s) && IsRun(s, steps) && Popping(s, m) && EndPop !in steps
    ensures Popping(After(s, steps), m)
    decreases |steps|
  {
    if steps != [] {
      DoKeepsShape(s, steps[0]);
      StepKeepsPopping(s, steps[0], m);
      hide Do, Enabled, WellFormed, Popping;
      RunKeepsPopping(Do(s, steps[0]), steps[1..], m);
    }
  }

  /** However producers interleave with a pop_batch(m): it holds at most m records, at most 128 and
      none for m <= 0, and it ends exactly when it holds that many or the next ticket is not yet
      written. A finished record is never left behind. */
  lemma StopsOnlyAtUnfinishedTicket(s: State, m: int, steps: seq<Step>)
    requires Inv(s) && Enabled(s, BeginPop(m)) && WellFormed(Do(s, BeginPop(m))) && EndPop !in steps
    requires IsRun(Do(s, BeginPop(m)), steps) && NeverSaturated(Do(s, BeginPop(m)), steps)
    requires After(Do(s, BeginPop(m)), steps).consumer.Scanning?
    ensures var e := After(Do(s, BeginPop(m)), steps);
      && Inv(e) && |e.consumer.batch| <= (if m < 0 then 0 else if m < 128 then m else 128)
      && (Do(e, CheckSlot).consumer.Closing?
          <==> |e.consumer.batch| >= m || |e.consumer.batch| >= 128 || !AtProgress(e, Cursor(e), Finished))
  {
    StepKeepsInv(s, BeginPop(m));
    RunKeepsInv(Do(s, BeginPop(m)), steps);
    RunKeepsPopping(Do(s, BeginPop(m)), steps, m);
    ReadyMeansFinished(After(Do(s, BeginPop(m)), steps));
    hide IsRun, After, NeverSaturated;
  }

  // ---- a full ring ----

  ghost predicate Leads(s: State, steps: seq<Step>, e: State) {
    WellFormed(s) && IsRun(s, steps) && After(s, steps) == e
  }

  lemma Prepend(s: State, step: Step, mid: State, rest: seq<Step>, e: State) returns (steps: seq<Step>)
    requires WellFormed(s) && Enabled(s, step) && Do(s, step) == mid && Leads(mid, rest, e)
    ensures Leads(s, steps, e)
    ensures NeverSaturated(s, steps) <==> Unsaturated(s, step) && NeverSaturated(mid, rest)
    ensures Pushed(steps) == (if step.Claim? then [step.record] else []) + Pushed(rest)
  {
    steps := [step] + rest;
    assert steps[1..] == rest;
  }

  const A: Record := [IntWord(1), IntWord(1)]
  const B: Record := [IntWord(2), IntWord(2)]
  const TORN: Record := [IntWord(1), IntWord(2)]

  const START := State(2, [[IntWord(0), IntWord(0)]], [EMPTY], 0, 0, [], Idle, [])
  const PUSHED_A := START.(slots := [A], status := [READY], calls := [Call(A, Finished)])
  const HALF_READ := PUSHED_A.(consumer := Copying(0, 1, [], [IntWord(1)]))
  const CLAIMED_B := HALF_READ.(calls := [Call(A, Finished), Call(B, Claimed)])
  const GUARDED_B := HALF_READ.(readPtr := 1, drops := 1, calls := [Call(A, Finished), Call(B, Guarded)])
  const WRITING_B := GUARDED_B.(status := [WRITING], calls := [Call(A, Finished), Call(B, Storing(0))])
  const OVERTAKEN := WRITING_B.(slots := [B], calls := [Call(A, Finished), Call(B, Storing(2))])
  const CLOSED := OVERTAKEN.(status := [EMPTY], readPtr := 2, consumer := Idle, delivered := [TORN])

  lemma StoreA(s3: State, rest: seq<Step>, e: State) returns (steps: seq<Step>)
    requires s3 == START.(calls := [Call(A, Storing(0))], status := [WRITING])
    requires Leads(PUSHED_A, rest, e)
    ensures Leads(s3, steps, e) && Pushed(steps) == Pushed(rest)
    ensures NeverSaturated(s3, steps) ==> NeverSaturated(PUSHED_A, rest)
  {
    var s4 := s3.(calls := [Call(A, Storing(1))], slots := [[IntWord(1), IntWord(0)]]);
    var s5 := s4.(calls := [Call(A, Storing(2))], slots := [A]);
    assert s3.slots[0][0 := IntWord(1)] == s4.slots[0];
    assert s4.slots[0][1 := IntWord(1)] == A;
    steps := Prepend(s5, MarkReady(0), PUSHED_A, rest, e);
    steps := Prepend(s4, StoreWord(0), s5, steps, e);
    steps := Prepend(s3, StoreWord(0), s4, steps, e);
  }

  lemma BeginA(s1: State, rest: seq<Step>, e: State) returns (steps: seq<Step>)
    requires s1 == START.(calls := [Call(A, Claimed)]) && Leads(PUSHED_A, rest, e)
    ensures Leads(s1, steps, e) && Pushed(steps) == Pushed(rest)
    ensures NeverSaturated(s1, steps) ==> NeverSaturated(PUSHED_A, rest)
  {
    var s2 := s1.(calls := [Call(A, Guarded)]);
    var s3 := s2.(calls := [Call(A, Storing(0))], status := [WRITING]);
    steps := StoreA(s3, rest, e);
    steps := Prepend(s2, MarkWriting(0), s3, steps, e);
    steps := Prepend(s1, Guard(0), s2, steps, e);
  }

  lemma PushA(rest: seq<Step>, e: State) returns (steps: seq<Step>)
    requires Leads(PUSHED_A, rest, e)
    ensures Leads(START, steps, e)
    ensures NeverSaturated(START, steps) ==> NeverSaturated(PUSHED_A, rest)
    ensures Pushed(steps) == [A] + Pushed(rest)
  {
    var s1 := START.(calls := [Call(A, Claimed)]);
    steps := BeginA(s1, rest, e);
    steps := Prepend(START, Claim(A), s1, steps, e);
  }

  lemma ReadHalf(rest: seq<Step>, e: State) returns (steps: seq<Step>)
    requires Leads(HALF_READ, rest, e)
    ensures Leads(PUSHED_A, steps, e)
    ensures NeverSaturated(PUSHED_A, steps) ==> NeverSaturated(HALF_READ, rest)
    ensures Pushed(steps) == Pushed(rest)
  {
    var s7 := PUSHED_A.(consumer := Scanning(0, 1, []));
    var s8 := s7.(consumer := Copying(0, 1, [], []));
    assert [] + [A[0]] == [IntWord(1)];
    steps := Prepend(s8, CopyWord, HALF_READ, rest, e);
    steps := Prepend(s7, CheckSlot, s8, steps, e);
    steps := Prepend(PUSHED_A, BeginPop(1), s7, steps, e);
  }

  lemma StoreB(rest: seq<Step>, e: State) returns (steps: seq<Step>)
    requires Leads(OVERTAKEN, rest, e)
    ensures Leads(WRITING_B, steps, e) && Pushed(steps) == Pushed(rest)
  {
    var s4 := WRITING_B.(calls := [Call(A, Finished), Call(B, Storing(1))], slots := [[IntWord(2), IntWord(1)]]);
    assert A[0 := IntWord(2)] == s4.slots[0];
    assert s4.slots[0][1 := IntWord(2)] == B;
    steps := Prepend(s4, StoreWord(1), OVERTAKEN, rest, e);
    steps := Prepend(WRITING_B, StoreWord(1), s4, steps, e);
  }

  lemma MarkB(rest: seq<Step>, e: State) returns (steps: seq<Step>)
    requires Leads(WRITING_B, rest, e)
    ensures Leads(GUARDED_B, steps, e) && Pushed(steps) == Pushed(rest)
  {
    steps := Prepend(GUARDED_B, MarkWriting(1), WRITING_B, rest, e);
  }

  /** The step that breaks the hypothesis: ticket 1 meets a full one-slot ring. */
  lemma GuardB(rest: seq<Step>, e: State) returns (steps: seq<Step>)
    requires Leads(GUARDED_B, rest, e)
    ensures Leads(CLAIMED_B, steps, e) && !NeverSaturated(CLAIMED_B, steps) && Pushed(steps) == Pushed(rest)
  {
    steps := Prepend(CLAIMED_B, Guard(1), GUARDED_B, rest, e);
  }

  lemma Overtake(rest: seq<Step>, e: State) returns (steps: seq<Step>)
    requires Leads(CLAIMED_B, rest, e) && !NeverSaturated(CLAIMED_B, rest)
    ensures Leads(HALF_READ, steps, e) && !NeverSaturated(HALF_READ, steps)
    ensures Pushed(steps) == [B] + Pushed(rest)
  {
    steps := Prepend(HALF_READ, Claim(B), CLAIMED_B, rest, e);
  }

  lemma CloseBatch(s1: State) returns (steps: seq<Step>)
    requires s1 == OVERTAKEN.(consumer := Copying(0, 1, [], TORN))
    ensures Leads(s1, steps, CLOSED) && Pushed(steps) == []
  {
    var s2 := s1.(consumer := Scanning(0, 1, [TORN]), status := [EMPTY]);
    var s3 := s2.(consumer := Closing(0, [TORN]));
    steps := Prepend(s3, EndPop, CLOSED, [], CLOSED);
    steps := Prepend(s2, CheckSlot, s3, steps, CLOSED);
    steps := Prepend(s1, MarkEmpty, s2, steps, CLOSED);
  }

  lemma ReadRest() returns (steps: seq<Step>)
    ensures Leads(OVERTAKEN, steps, CLOSED) && Pushed(steps) == []
  {
    var s1 := OVERTAKEN.(consumer := Copying(0, 1, [], TORN));
    assert [IntWord(1)] + [B[1]] == TORN;
    steps := CloseBatch(s1);
    steps := Prepend(OVERTAKEN, CopyWord, s1, steps, CLOSED);
  }

  /** The hypothesis of ExactlyOnce is needed. On a one-slot ring a push that takes the
      overflow branch while the consumer is copying yields a record nobody pushed, and
      leaves its own ticket (1) behind read_ptr (2), to be skipped. */
  lemma FullRingCanTear() returns (steps: seq<Step>)
    ensures Initial(START) && Leads(START, steps, CLOSED) && !NeverSaturated(START, steps)
    ensures Pushed(steps) == [A, B] && CLOSED.delivered == [TORN] && CLOSED.readPtr == 2
    ensures TORN !in Pushed(steps)
  {
    steps := ReadRest();
    steps := StoreB(steps, CLOSED);
    steps := MarkB(steps, CLOSED);
    steps := GuardB(steps, CLOSED);
    steps := Overtake(steps, CLOSED);
    steps := ReadHalf(steps, CLOSED);
    steps := PushA(steps, CLOSED);
    assert A[1] != TORN[1] && B[0] != TORN[0];
  }
}
