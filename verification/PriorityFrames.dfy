/** hardened_websocket_runtime.py, BinaryPriorityQueue: a bounded queue of binary frames that
    gives up nominal frames before critical ones. */
module PriorityFrames {
  import opened Basics

  type Frame = seq<byte>

  /** A little-endian 32-bit word, signed. */
  function Signed(b1: int, b2: int, b3: int, b4: int): int {
    var u := b1 + b2 * 0x100 + b3 * 0x1_0000 + b4 * 0x100_0000;
    if u > 0x7FFF_FFFF then u - 0x1_0000_0000 else u
  }

  /** The word at offset 1. */
  function ThreatState(f: Frame): int
    requires |f| >= 5
  {
    Signed(f[1], f[2], f[3], f[4])
  }

  predicate IsCritical(f: Frame) { |f| >= 5 && ThreatState(f) == 3 }

  /** Exactly the frames whose threat word is the bytes 3, 0, 0, 0. */
  lemma CriticalBytes(f: Frame)
    requires |f| >= 5
    ensures IsCritical(f) <==> f[1] == 3 && f[2] == 0 && f[3] == 0 && f[4] == 0
  {
  }

  // ---- runs, with every accepted frame numbered in order of arrival ----

  datatype Item = Item(frame: Frame, ticket: nat)

  /** arrivals: the frames pushed without an exception. Each is queued, popped or lost. */
  datatype State = State(arrivals: seq<Item>, queue: seq<Item>, popped: seq<Item>, lost: seq<Item>)

  datatype Event = Push(frame: Frame) | Pop

  const EMPTY := State([], [], [], [])

  ghost predicate AllCritical(q: seq<Item>) { forall i :: 0 <= i < |q| ==> IsCritical(q[i].frame) }

  /** The place of the oldest nominal frame, or the queue's length. */
  function OldestNominal(q: seq<Item>): (k: nat)
    ensures k <= |q| && (k < |q| ==> !IsCritical(q[k].frame))
    ensures forall i :: 0 <= i < k ==> IsCritical(q[i].frame)
  {
    if |q| == 0 || !IsCritical(q[0].frame) then 0 else 1 + OldestNominal(q[1..])
  }

  function Without<T>(q: seq<T>, k: nat): seq<T>
    requires k < |q|
  {
    q[..k] + q[k + 1..]
  }

  /** A push raises, and changes nothing, for a frame without a threat word, and for a critical
      frame when there is no room at all. */
  predicate Raises(capacity: int, s: State, f: Frame) {
    |f| < 5 || (|s.queue| >= capacity && IsCritical(f) && |s.queue| == 0)
  }

  /** The place of the frame a full queue gives up for a critical one. */
  function Victim(q: seq<Item>): (k: nat)
    requires |q| > 0
    ensures k < |q|
  {
    var k := OldestNominal(q);
    if k < |q| then k else 0
  }

  function Pushed(capacity: int, s: State, f: Frame): State {
    if Raises(capacity, s, f) then s
    else
      var x := Item(f, |s.arrivals|);
      if |s.queue| < capacity then State(s.arrivals + [x], s.queue + [x], s.popped, s.lost)
      else if !IsCritical(f) then State(s.arrivals + [x], s.queue, s.popped, s.lost + [x])
      else
        var k := Victim(s.queue);
        State(s.arrivals + [x], Without(s.queue, k) + [x], s.popped, s.lost + [s.queue[k]])
  }

  function Popped(s: State): State {
    if |s.queue| == 0 then s else State(s.arrivals, s.queue[1..], s.popped + [s.queue[0]], s.lost)
  }

  function Run(capacity: int, events: seq<Event>): State {
    if |events| == 0 then EMPTY
    else
      var s := Run(capacity, events[..|events| - 1]);
      match events[|events| - 1]
      case Push(f) => Pushed(capacity, s, f)
      case Pop => Popped(s)
  }

  ghost predicate Increasing(q: seq<Item>) { forall i, j :: 0 <= i < j < |q| ==> q[i].ticket < q[j].ticket }

  /** Every accepted frame is popped, queued or lost, and just one of these; the queue is in order
      of arrival, behind everything popped, and within capacity. */
  ghost predicate Inv(capacity: int, s: State) {
    (|s.queue| <= capacity || |s.queue| == 0)
    && Numbered(s.arrivals)
    && Increasing(s.popped + s.queue)
    && multiset(s.popped) + multiset(s.queue) + multiset(s.lost) == multiset(s.arrivals)
  }

  ghost predicate Numbered(arrivals: seq<Item>) { forall i :: 0 <= i < |arrivals| ==> arrivals[i].ticket == i }

  lemma WithoutOne(q: seq<Item>, k: nat)
    requires k < |q|
    ensures multiset(q) == multiset(Without(q, k)) + multiset{q[k]} && |Without(q, k)| == |q| - 1
  {
    assert q == q[..k] + [q[k]] + q[k + 1..];
  }

  lemma IncreasingWithout(p: seq<Item>, q: seq<Item>, k: nat)
    requires Increasing(p + q) && k < |q|
    ensures Increasing(p + Without(q, k))
  {
    var all, w := p + q, p + Without(q, k);
    forall i, j | 0 <= i < j < |w| ensures w[i].ticket < w[j].ticket {
      var i', j' := if i < |p| + k then i else i + 1, if j < |p| + k then j else j + 1;
      assert w[i] == all[i'] && w[j] == all[j'];
    }
  }

  lemma IncreasingGrows(q: seq<Item>, x: Item)
    requires Increasing(q) && forall i :: 0 <= i < |q| ==> q[i].ticket < x.ticket
    ensures Increasing(q + [x])
  {
  }

  /** Everything popped or queued arrived before the next ticket. */
  lemma TicketsBelow(s: State, q: seq<Item>)
    requires Numbered(s.arrivals) && multiset(q) <= multiset(s.arrivals)
    ensures forall i :: 0 <= i < |q| ==> q[i].ticket < |s.arrivals|
  {
    forall i | 0 <= i < |q| ensures q[i].ticket < |s.arrivals| {
      assert q[i] in multiset(q);
      assert q[i] in multiset(s.arrivals);
    }
  }

  lemma NewArrival(s: State, q: seq<Item>, x: Item)
    requires Numbered(s.arrivals) && x.ticket == |s.arrivals|
    requires Increasing(s.popped + q) && multiset(s.popped) + multiset(q) <= multiset(s.arrivals)
    ensures Increasing(s.popped + (q + [x])) && Numbered(s.arrivals + [x])
  {
    assert multiset(s.popped + q) == multiset(s.popped) + multiset(q);
    TicketsBelow(s, s.popped + q);
    IncreasingGrows(s.popped + q, x);
    assert s.popped + q + [x] == s.popped + (q + [x]);
  }

  lemma Snoc(q: seq<Item>, x: Item)
    ensures multiset(q + [x]) == multiset(q) + multiset{x}
  {
  }

  lemma PushKeepsInv(capacity: int, s: State, f: Frame)
    requires Inv(capacity, s)
    ensures Inv(capacity, Pushed(capacity, s, f))
  {
    hide Victim, Increasing, Numbered, IsCritical, Without;
    var x := Item(f, |s.arrivals|);
    NewArrival(s, s.queue, x);
    Snoc(s.arrivals, x);
    if Raises(capacity, s, f) {
    } else if |s.queue| < capacity {
      Snoc(s.queue, x);
    } else if !IsCritical(f) {
      Snoc(s.lost, x);
    } else {
      var k := Victim(s.queue);
      EvictionKeepsInv(capacity, s, x, k);
    }
  }

  lemma EvictionKeepsInv(capacity: int, s: State, x: Item, k: nat)
    requires Inv(capacity, s) && k < |s.queue| && x.ticket == |s.arrivals|
    ensures Inv(capacity, State(s.arrivals + [x], Without(s.queue, k) + [x], s.popped, s.lost + [s.queue[k]]))
  {
    hide Increasing, Numbered, Without;
    var w := Without(s.queue, k);
    WithoutOne(s.queue, k);
    IncreasingWithout(s.popped, s.queue, k);
    NewArrival(s, w, x);
    Snoc(s.arrivals, x);
    Snoc(w, x);
    Snoc(s.lost, s.queue[k]);
  }

  lemma PopKeepsInv(capacity: int, s: State)
    requires Inv(capacity, s)
    ensures Inv(capacity, Popped(s))
  {
    if |s.queue| > 0 {
      assert s.queue == [s.queue[0]] + s.queue[1..];
      assert s.popped + [s.queue[0]] + s.queue[1..] == s.popped + s.queue;
    }
  }

  lemma {:induction false} RunKeepsInv(capacity: int, events: seq<Event>)
    ensures Inv(capacity, Run(capacity, events))
  {
    if |events| > 0 {
      RunKeepsInv(capacity, events[..|events| - 1]);
      var s := Run(capacity, events[..|events| - 1]);
      match events[|events| - 1]
      case Push(f) => PushKeepsInv(capacity, s, f);
      case Pop => PopKeepsInv(capacity, s);
    }
  }

  function Count(q: seq<Item>, critical: bool): nat {
    if |q| == 0 then 0 else Count(q[..|q| - 1], critical) + (if IsCritical(q[|q| - 1].frame) == critical then 1 else 0)
  }

  lemma {:induction false} CountsAddUp(q: seq<Item>)
    ensures Count(q, true) + Count(q, false) == |q|
  {
    if |q| > 0 { CountsAddUp(q[..|q| - 1]); }
  }

  /** Frames pushed = popped + queued + dropped + critical dropped, over every run. */
  lemma Conservation(capacity: int, events: seq<Event>)
    ensures var s := Run(capacity, events);
      |s.arrivals| == |s.popped| + |s.queue| + Count(s.lost, false) + Count(s.lost, true)
  {
    var s := Run(capacity, events);
    RunKeepsInv(capacity, events);
    CountsAddUp(s.lost);
    assert |multiset(s.popped) + multiset(s.queue) + multiset(s.lost)| == |multiset(s.arrivals)|;
  }

  /** A critical frame is given up only when every queued frame is critical and it is the oldest. */
  lemma CriticalLossIsForced(capacity: int, s: State, f: Frame)
    ensures var s' := Pushed(capacity, s, f);
      s'.lost == s.lost
      || exists x :: s'.lost == s.lost + [x]
                     && (IsCritical(x.frame) ==> AllCritical(s.queue) && 0 < |s.queue| && capacity <= |s.queue| && x == s.queue[0])
  {
    if !Raises(capacity, s, f) && |s.queue| >= capacity {
      var x := if IsCritical(f) then s.queue[Victim(s.queue)] else Item(f, |s.arrivals|);
      assert Pushed(capacity, s, f).lost == s.lost + [x];
    }
  }

  /** What a push that does not raise gives up, and for what: nothing below capacity, itself if it is
      nominal, and otherwise the oldest nominal frame, or the oldest of all when none is nominal. */
  lemma PushExactly(capacity: int, s: State, f: Frame)
    requires |f| >= 5 && (|s.queue| > 0 || capacity > 0 || !IsCritical(f))
    ensures var x, t, q := Item(f, |s.arrivals|), Pushed(capacity, s, f), s.queue;
      && t.arrivals == s.arrivals + [x] && t.popped == s.popped
      && (|q| < capacity ==> t.queue == q + [x] && t.lost == s.lost)
      && (|q| >= capacity && !IsCritical(f) ==> t.queue == q && t.lost == s.lost + [x])
      && (|q| >= capacity && IsCritical(f) ==>
            exists k: nat :: k < |q| && t.queue == q[..k] + q[k + 1..] + [x] && t.lost == s.lost + [q[k]]
              && (if AllCritical(q) then k == 0 else !IsCritical(q[k].frame) && forall i: nat :: i < k ==> IsCritical(q[i].frame)))
  {
    hide IsCritical;
    if |s.queue| >= capacity && IsCritical(f) { VictimIsOldest(s.queue); }
  }

  lemma VictimIsOldest(q: seq<Item>)
    requires |q| > 0
    ensures var k := Victim(q);
      if AllCritical(q) then k == 0 else !IsCritical(q[k].frame) && forall i: nat :: i < k ==> IsCritical(q[i].frame)
  {
    hide IsCritical;
    var k := OldestNominal(q);
    assert k < |q| ==> !AllCritical(q);
  }

  // ---- bursts ----

  /** The critical ones, in order. */
  function Criticals(q: seq<Item>): (c: seq<Item>)
    ensures |c| <= |q|
  {
    if |q| == 0 then [] else Criticals(q[..|q| - 1]) + (if IsCritical(q[|q| - 1].frame) then [q[|q| - 1]] else [])
  }

  function LastFew(q: seq<Item>, n: nat): seq<Item> { if |q| <= n then q else q[|q| - n..] }

  lemma CriticalsSnoc(q: seq<Item>, x: Item)
    ensures Criticals(q + [x]) == Criticals(q) + (if IsCritical(x.frame) then [x] else [])
  {
    assert (q + [x])[..|q|] == q;
  }

  lemma {:induction false} CriticalsSplit(p: seq<Item>, q: seq<Item>)
    ensures Criticals(p + q) == Criticals(p) + Criticals(q)
    decreases |q|
  {
    if |q| == 0 {
      assert p + q == p;
    } else {
      var k := |q| - 1;
      CriticalsSplit(p, q[..k]);
      assert (p + q)[..|p + q| - 1] == p + q[..k];
    }
  }

  lemma {:induction false} CriticalsOfAll(q: seq<Item>)
    ensures |Criticals(q)| == |q| <==> AllCritical(q)
    ensures AllCritical(q) ==> Criticals(q) == q
  {
    if |q| > 0 {
      var k := |q| - 1;
      CriticalsOfAll(q[..k]);
      assert q == q[..k] + [q[k]];
    }
  }

  lemma CriticalsWithoutNominal(q: seq<Item>, k: nat)
    requires k < |q| && !IsCritical(q[k].frame)
    ensures Criticals(Without(q, k)) == Criticals(q)
  {
    hide Criticals, IsCritical;
    var a, b := q[..k], q[k + 1..];
    assert q == a + [q[k]] + b;
    CriticalsSplit(a + [q[k]], b);
    CriticalsSnoc(a, q[k]);
    CriticalsSplit(a, b);
  }

  lemma VictimIs(q: seq<Item>)
    requires |q| > 0
    ensures AllCritical(q) ==> Victim(q) == 0 && Without(q, 0) == q[1..]
    ensures !AllCritical(q) ==> !IsCritical(q[Victim(q)].frame)
  {
    hide IsCritical;
  }

  /** Giving up a nominal frame keeps the critical ones, giving up the oldest of critical ones
      keeps the others. */
  lemma CriticalsWithoutVictim(q: seq<Item>)
    requires |q| > 0
    ensures Criticals(Without(q, Victim(q))) == if AllCritical(q) then Criticals(q)[1..] else Criticals(q)
    ensures AllCritical(q) ==> Criticals(q) == q
    ensures !AllCritical(q) ==> |Criticals(q)| < |q|
  {
    hide Criticals, IsCritical, Victim, Without;
    VictimIs(q);
    CriticalsOfAll(q);
    if AllCritical(q) {
      CriticalsOfAll(q[1..]);
    } else {
      CriticalsWithoutNominal(q, Victim(q));
    }
  }

  lemma LastFewNext(all: seq<Item>, x: Item, n: nat)
    requires n > 0
    ensures |all| < n ==> LastFew(all + [x], n) == LastFew(all, n) + [x]
    ensures |all| >= n ==> |LastFew(all, n)| == n && LastFew(all + [x], n) == LastFew(all, n)[1..] + [x]
  {
  }

  /** The critical frames kept are the latest ones of all that arrived. */
  ghost predicate KeepsLatest(capacity: nat, s: State) {
    Criticals(s.queue) == LastFew(Criticals(s.arrivals), capacity)
  }

  lemma PushKeepsLatest(capacity: nat, s: State, f: Frame)
    requires capacity >= 1 && |s.queue| <= capacity && KeepsLatest(capacity, s)
    ensures KeepsLatest(capacity, Pushed(capacity, s, f))
  {
    hide Victim, Criticals, IsCritical;
    var x := Item(f, |s.arrivals|);
    CriticalsSnoc(s.arrivals, x);
    CriticalsSnoc(s.queue, x);
    LastFewNext(Criticals(s.arrivals), x, capacity);
    if !Raises(capacity, s, f) && |s.queue| >= capacity && IsCritical(f) {
      CriticalsWithoutVictim(s.queue);
      CriticalsSnoc(Without(s.queue, Victim(s.queue)), x);
    }
  }

  /** A burst without pops keeps exactly the last min(capacity, C) of its C critical frames,
      whatever nominal traffic is mixed in. */
  lemma {:induction false} BurstsKeepTheLatest(capacity: nat, events: seq<Event>)
    requires capacity >= 1 && forall i :: 0 <= i < |events| ==> events[i].Push?
    ensures KeepsLatest(capacity, Run(capacity, events))
  {
    if |events| > 0 {
      var front := events[..|events| - 1];
      BurstsKeepTheLatest(capacity, front);
      RunKeepsInv(capacity, front);
      PushKeepsLatest(capacity, Run(capacity, front), events[|events| - 1].frame);
    }
  }

  // ---- the queue ----

  function Frames(q: seq<Item>): (fs: seq<Frame>)
    ensures |fs| == |q| && forall i :: 0 <= i < |q| ==> fs[i] == q[i].frame
  {
    seq(|q|, i requires 0 <= i < |q| => q[i].frame)
  }

  lemma FramesParts(q: seq<Item>, x: Item, k: nat)
    ensures Frames(q + [x]) == Frames(q) + [x.frame]
    ensures k < |q| ==> Frames(Without(q, k)) == Frames(q)[..k] + Frames(q)[k + 1..]
  {
  }

  lemma FramesLength(q: seq<Item>)
    ensures |Frames(q)| == |q|
  {
  }

  lemma CountSnoc(q: seq<Item>, x: Item, critical: bool)
    ensures Count(q + [x], critical) == Count(q, critical) + (if IsCritical(x.frame) == critical then 1 else 0)
  {
    assert (q + [x])[..|q|] == q;
  }

  class BinaryPriorityQueue {
    const maxCapacity: int
    var queue: seq<Frame>
    var dropCount: nat
    var criticalDropCount: nat
    ghost var state: State

    ghost predicate Valid()
      reads this
    {
      Inv(maxCapacity, state) && queue == Frames(state.queue)
      && dropCount == Count(state.lost, false) && criticalDropCount == Count(state.lost, true)
    }

    constructor (maxCapacity: int)
      ensures Valid() && state == EMPTY && this.maxCapacity == maxCapacity
    {
      this.maxCapacity := maxCapacity;
      queue, dropCount, criticalDropCount := [], 0, 0;
      state := EMPTY;
    }

    /** The index of the oldest non-critical frame, or -1. */
    method FindNominal() returns (nonCritIdx: int)
      ensures -1 <= nonCritIdx < |queue|
      ensures nonCritIdx >= 0 ==> !IsCritical(queue[nonCritIdx]) && forall i :: 0 <= i < nonCritIdx ==> IsCritical(queue[i])
      ensures nonCritIdx == -1 ==> forall i :: 0 <= i < |queue| ==> IsCritical(queue[i])
    {
      nonCritIdx := -1;
      for idx := 0 to |queue|
        invariant nonCritIdx == -1 && forall i :: 0 <= i < idx ==> IsCritical(queue[i])
      {
        if !IsCritical(queue[idx]) { return idx; }
      }
    }

    /** Makes room for a critical frame in a full queue. */
    method Evict(ghost items: seq<Item>) returns (wasCritical: bool)
      requires queue == Frames(items) && |queue| > 0
      modifies this`queue
      ensures queue == Frames(Without(items, Victim(items)))
      ensures wasCritical <==> IsCritical(items[Victim(items)].frame)
    {
      hide IsCritical;
      ghost var k := Victim(items);
      FramesParts(items, items[0], k);
      VictimIs(items);
      var nonCritIdx := FindNominal();
      assert forall i :: 0 <= i < |items| ==> queue[i] == items[i].frame;
      if nonCritIdx != -1 {
        assert k == nonCritIdx;
        queue := queue[..nonCritIdx] + queue[nonCritIdx + 1..];
        wasCritical := false;
      } else {
        assert AllCritical(items);
        queue := queue[1..];
        wasCritical := true;
      }
    }

    /** A critical frame meets a full queue that is not empty. */
    method PushCritical(frame: Frame, ghost s: State)
      requires queue == Frames(s.queue) && |queue| > 0
      requires dropCount == Count(s.lost, false) && criticalDropCount == Count(s.lost, true)
      modifies this`queue, this`dropCount, this`criticalDropCount
      ensures queue == Frames(Without(s.queue, Victim(s.queue)) + [Item(frame, |s.arrivals|)])
      ensures dropCount == Count(s.lost + [s.queue[Victim(s.queue)]], false)
      ensures criticalDropCount == Count(s.lost + [s.queue[Victim(s.queue)]], true)
    {
      hide Count, IsCritical, Frames, Victim, Without;
      ghost var kept, y := Without(s.queue, Victim(s.queue)), s.queue[Victim(s.queue)];
      CountSnoc(s.lost, y, true); CountSnoc(s.lost, y, false);
      FramesParts(kept, Item(frame, |s.arrivals|), 0);
      var wasCritical := Evict(s.queue);
      queue := queue + [frame];
      if wasCritical {
        criticalDropCount := criticalDropCount + 1;
      } else {
        dropCount := dropCount + 1;
      }
    }

    /** A push that meets a full queue. */
    method Overflow(frame: Frame, ghost s: State) returns (raised: bool)
      requires queue == Frames(s.queue) && |queue| >= maxCapacity && |frame| >= 5
      requires dropCount == Count(s.lost, false) && criticalDropCount == Count(s.lost, true)
      modifies this`queue, this`dropCount, this`criticalDropCount
      ensures raised == Raises(maxCapacity, s, frame)
      ensures queue == Frames(Pushed(maxCapacity, s, frame).queue)
      ensures dropCount == Count(Pushed(maxCapacity, s, frame).lost, false)
      ensures criticalDropCount == Count(Pushed(maxCapacity, s, frame).lost, true)
    {
      PushedCases(maxCapacity, s, frame);
      FramesLength(s.queue);
      hide Victim, Count, IsCritical, Frames, Without, Pushed;
      var isCritical := IsCritical(frame);
      if isCritical {
        if |queue| == 0 { return true; }
        PushCritical(frame, s);
        return false;
      } else {
        ghost var x := Item(frame, |s.arrivals|);
        CountSnoc(s.lost, x, true); CountSnoc(s.lost, x, false);
        dropCount := dropCount + 1;
        return false;
      }
    }

    method Push(frame: Frame) returns (raised: bool)
      requires Valid()
      modifies this
      ensures Valid() && raised == Raises(maxCapacity, old(state), frame)
      ensures state == Pushed(maxCapacity, old(state), frame)
    {
      ghost var s := state;
      PushKeepsInv(maxCapacity, s, frame);
      FramesLength(s.queue);
      EasyPush(maxCapacity, s, frame);
      hide Inv, Count, IsCritical, Frames, Pushed, Raises;
      state := Pushed(maxCapacity, s, frame);
      if |frame| < 5 {
        raised := true;
      } else if |queue| < maxCapacity {
        FramesParts(s.queue, Item(frame, |s.arrivals|), 0);
        queue := queue + [frame];
        raised := false;
      } else {
        raised := Overflow(frame, s);
      }
    }

    lemma EasyPush(capacity: int, s: State, f: Frame)
      ensures |f| < 5 ==> Raises(capacity, s, f) && Pushed(capacity, s, f) == s
      ensures |f| >= 5 && |s.queue| < capacity ==> !Raises(capacity, s, f) && Pushed(capacity, s, f).lost == s.lost
      ensures |f| >= 5 && |s.queue| < capacity ==> Pushed(capacity, s, f).queue == s.queue + [Item(f, |s.arrivals|)]
    {
    }

    lemma PushedCases(capacity: int, s: State, f: Frame)
      ensures var x, s' := Item(f, |s.arrivals|), Pushed(capacity, s, f);
        if Raises(capacity, s, f) then s' == s
        else if |s.queue| < capacity then s'.queue == s.queue + [x] && s'.lost == s.lost
        else if !IsCritical(f) then s'.queue == s.queue && s'.lost == s.lost + [x]
        else |s.queue| > 0 && s'.queue == Without(s.queue, Victim(s.queue)) + [x] && s'.lost == s.lost + [s.queue[Victim(s.queue)]]
    {
      hide Victim, Without, IsCritical;
    }

    method Pop() returns (frame: Option<Frame>)
      requires Valid()
      modifies this
      ensures Valid() && state == Popped(old(state))
      ensures frame == if |old(state).queue| == 0 then None else Some(old(state).queue[0].frame)
    {
      PopKeepsInv(maxCapacity, state);
      hide Inv, Count;
      if |queue| > 0 {
        frame := Some(queue[0]);
        queue := queue[1..];
      } else {
        frame := None;
      }
      state := Popped(state);
    }
  }
}
