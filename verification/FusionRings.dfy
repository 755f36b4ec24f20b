/** The reference behaviour of the two telemetry rings: a bounded queue that drops the oldest
    record. The whole push history is kept, so that what is queued, handed out or lost is a
    range of it. */
module DropOldestLog {

  /** One telemetry record; the three lists have one entry per antenna channel. */
  datatype Record = Record(
    threatState: int, jammerScore: real, spoofScore: real, sphericity: real,
    skewResiduals: seq<real>, aoaDeviation: seq<real>, nullingDirectives: seq<bool>, timestamp: real)

  /** `history[next..]` is queued. */
  datatype Log = Log(history: seq<Record>, next: nat, popped: nat, dropped: nat)

  datatype Op = Push(record: Record) | PopBatch(maxCount: int)

  const EMPTY := Log([], 0, 0, 0)

  function Queue(log: Log): seq<Record>
    requires log.next <= |log.history|
  {
    log.history[log.next..]
  }

  ghost predicate Valid(log: Log, capacity: nat) {
    && log.next <= |log.history|
    && |log.history| - log.next <= capacity
    && log.next == log.popped + log.dropped
  }

  function AfterPush(log: Log, capacity: nat, r: Record): Log
    requires log.next <= |log.history|
  {
    if |log.history| - log.next < capacity
    then log.(history := log.history + [r])
    else log.(history := log.history + [r], next := log.next + 1, dropped := log.dropped + 1)
  }

  /** pop_batch never returns more than its 128 output slots; a negative request returns nothing. */
  function BatchSize(log: Log, maxCount: int): nat
    requires log.next <= |log.history|
  {
    var request := if maxCount < 128 then maxCount else 128;
    var queued := |log.history| - log.next;
    if request < 0 then 0 else if request < queued then request else queued
  }

  function AfterPop(log: Log, maxCount: int): Log
    requires log.next <= |log.history|
  {
    var n := BatchSize(log, maxCount);
    log.(next := log.next + n, popped := log.popped + n)
  }

  function Batch(log: Log, maxCount: int): seq<Record>
    requires log.next <= |log.history|
  {
    log.history[log.next..log.next + BatchSize(log, maxCount)]
  }

  /** The front of the queue, as much of it as asked for, and never more than 128. */
  predicate IsFront(batch: seq<Record>, queue: seq<Record>, maxCount: int) {
    && batch <= queue
    && (maxCount <= 0 ==> |batch| == 0)
    && (maxCount > 0 ==> |batch| <= maxCount && |batch| <= 128 && (|batch| == maxCount || |batch| == 128 || |batch| == |queue|))
  }

  function AfterOp(log: Log, capacity: nat, op: Op): Log
    requires log.next <= |log.history|
  {
    match op
    case Push(r) => AfterPush(log, capacity, r)
    case PopBatch(m) => AfterPop(log, m)
  }

  function Output(log: Log, op: Op): seq<Record>
    requires log.next <= |log.history|
  {
    match op
    case Push(_) => []
    case PopBatch(m) => Batch(log, m)
  }

  lemma OpKeepsValid(log: Log, capacity: nat, op: Op)
    requires Valid(log, capacity) && capacity > 0
    ensures Valid(AfterOp(log, capacity, op), capacity)
  {
  }

  ghost function Run(capacity: nat, ops: seq<Op>): (log: Log)
    requires capacity > 0
    ensures Valid(log, capacity)
  {
    if ops == [] then EMPTY
    else
      var before := Run(capacity, ops[..|ops| - 1]);
      OpKeepsValid(before, capacity, ops[|ops| - 1]);
      AfterOp(before, capacity, ops[|ops| - 1])
  }

  /** Everything handed out by a run, in order. */
  ghost function Outputs(capacity: nat, ops: seq<Op>): seq<Record>
    requires capacity > 0
  {
    if ops == [] then []
    else Outputs(capacity, ops[..|ops| - 1]) + Output(Run(capacity, ops[..|ops| - 1]), ops[|ops| - 1])
  }

  function Pushes(ops: seq<Op>): seq<Record> {
    if ops == [] then []
    else Pushes(ops[..|ops| - 1]) + (match ops[|ops| - 1] case Push(r) => [r] case PopBatch(_) => [])
  }

  /** Strictly increasing positions of the push history, one for every record handed out. */
  ghost predicate Picks(positions: seq<nat>, history: seq<Record>, out: seq<Record>, below: nat) {
    && |positions| == |out|
    && (forall i :: 0 <= i < |positions| ==> positions[i] < |history| && positions[i] < below && out[i] == history[positions[i]])
    && (forall i, j :: 0 <= i < j < |positions| ==> positions[i] < positions[j])
  }

  lemma {:induction false} RunCounts(capacity: nat, ops: seq<Op>)
    requires capacity > 0
    ensures Run(capacity, ops).history == Pushes(ops)
    ensures |Outputs(capacity, ops)| == Run(capacity, ops).popped
  {
    if ops == [] {
    } else {
      RunCounts(capacity, ops[..|ops| - 1]);
    }
  }

  lemma PicksExtend(positions: seq<nat>, history: seq<Record>, out: seq<Record>, below: nat, n: nat)
    requires Picks(positions, history, out, below) && below + n <= |history|
    ensures Picks(positions + seq(n, i requires 0 <= i => below + i), history, out + history[below..below + n], below + n)
  {
  }

  lemma {:induction false} RunPicks(capacity: nat, ops: seq<Op>) returns (positions: seq<nat>)
    requires capacity > 0
    ensures Picks(positions, Run(capacity, ops).history, Outputs(capacity, ops), Run(capacity, ops).next)
  {
    positions := [];
    if ops != [] {
      var before, op := ops[..|ops| - 1], ops[|ops| - 1];
      positions := RunPicks(capacity, before);
      var log := Run(capacity, before);
      if op.PopBatch? {
        var n := BatchSize(log, op.maxCount);
        PicksExtend(positions, log.history, Outputs(capacity, before), log.next, n);
        positions := positions + seq(n, i requires 0 <= i => log.next + i);
      }
    }
  }

  /** Over every run: nothing is handed out twice or out of order, and every record pushed is
      handed out, dropped or still queued. */
  lemma RunAccounts(capacity: nat, ops: seq<Op>) returns (positions: seq<nat>)
    requires capacity > 0
    ensures var log := Run(capacity, ops);
      && log.history == Pushes(ops)
      && |Pushes(ops)| == log.popped + log.dropped + |Queue(log)|
      && |Queue(log)| <= capacity
      && |Outputs(capacity, ops)| == log.popped
      && Picks(positions, Pushes(ops), Outputs(capacity, ops), log.next)
  {
    RunCounts(capacity, ops);
    positions := RunPicks(capacity, ops);
  }

  /** A run that drops nothing loses nothing: what was handed out, then what is queued, is the push
      history. */
  lemma {:induction false} NothingLost(capacity: nat, ops: seq<Op>)
    requires capacity > 0 && Run(capacity, ops).dropped == 0
    ensures Outputs(capacity, ops) + Queue(Run(capacity, ops)) == Pushes(ops)
  {
    if ops != [] {
      NothingLost(capacity, ops[..|ops| - 1]);
    }
  }

  lemma BatchIsFront(log: Log, maxCount: int)
    requires log.next <= |log.history|
    ensures IsFront(Batch(log, maxCount), Queue(log), maxCount)
    ensures Queue(AfterPop(log, maxCount)) == Queue(log)[|Batch(log, maxCount)|..]
  {
  }

  /** Once the ring overflows, the queue is exactly the last `capacity` records pushed. */
  lemma OverflowKeepsTheLatest(capacity: nat, ops: seq<Op>, r: Record)
    requires capacity > 0
    ensures var log := Run(capacity, ops); var after := AfterPush(log, capacity, r);
      && (after.dropped == log.dropped ==> Queue(after) == Queue(log) + [r])
      && (after.dropped == log.dropped + 1 ==>
            |after.history| >= capacity && Queue(after) == after.history[|after.history| - capacity..])
      && (after.dropped == log.dropped <==> |Queue(log)| < capacity)
  {
  }
}

/** fusion_ring_buffer.py: the ring guarded by one lock, so its calls are sequential. */
module LockedRing {
  import opened Circular
  import opened DropOldestLog

  class FusionRingBuffer {
    const capacity: nat
    const slots: array<Record>
    var writePtr: nat
    var readPtr: nat
    var dropCounter: nat
    ghost var log: Log

    ghost predicate Valid()
      reads this, slots
    {
      && capacity > 0 && slots.Length == capacity
      && DropOldestLog.Valid(log, capacity)
      && writePtr == |log.history| && readPtr == log.next && dropCounter == log.dropped
      && forall i :: readPtr <= i < writePtr ==> slots[Slot(i, capacity)] == log.history[i]
    }

    constructor (capacity: nat, blank: Record)
      requires capacity > 0
      ensures Valid() && fresh(slots)
      ensures this.capacity == capacity && log == EMPTY
    {
      this.capacity := capacity;
      slots := new Record[capacity](_ => blank);
      writePtr, readPtr, dropCounter := 0, 0, 0;
      log := EMPTY;
    }

    method Push(r: Record)
      requires Valid()
      modifies this, slots
      ensures Valid()
      ensures log == AfterPush(old(log), capacity, r)
    {
      var slot := Slot(writePtr, capacity);
      slots[slot] := r;
      var newWritePtr := writePtr + 1;
      if newWritePtr - readPtr > capacity {
        readPtr := newWritePtr - capacity;
        dropCounter := dropCounter + 1;
      }
      forall i | readPtr <= i < writePtr
        ensures Slot(i, capacity) != slot
      {
        SlotInjective(i, writePtr, capacity);
      }
      writePtr := newWritePtr;
      log := AfterPush(log, capacity, r);
    }

    method PopBatch(maxCount: int) returns (batch: seq<Record>, drops: nat)
      requires Valid()
      modifies this
      ensures Valid()
      ensures batch == Batch(old(log), maxCount) && log == AfterPop(old(log), maxCount)
      ensures IsFront(batch, Queue(old(log)), maxCount) && Queue(log) == Queue(old(log))[|batch|..]
      ensures drops == log.dropped
    {
      var count := if maxCount < 128 then maxCount else 128;
      var available := writePtr - readPtr;
      batch := [];
      if available > 0 {
        var poppedCount := count;
        if available < count { poppedCount := available; }
        var i := 0;
        while i < poppedCount
          invariant 0 <= i && (i <= poppedCount || poppedCount < 0)
          invariant poppedCount < 0 ==> i == 0
          invariant batch == log.history[readPtr..readPtr + i]
        {
          batch := batch + [slots[Slot(readPtr + i, capacity)]];
          i := i + 1;
        }
        readPtr := readPtr + i;
      }
      log := AfterPop(log, maxCount);
      drops := dropCounter;
    }
  }
}

/** lockfree_fusion_ring_buffer.py called by one thread at a time, status flags included. */
module SequentialLockFreeRing {
  import opened Circular
  import opened DropOldestLog
  import P = LockFreeProtocol

  class LockFreeFusionRingBuffer {
    const capacity: nat
    const slots: array<Record>
    const status: array<int>
    var writeSequence: nat
    var readPtr: nat
    var dropCounter: nat
    ghost var log: Log

    /** A slot is READY exactly when it holds a queued record. */
    ghost predicate Valid()
      reads this, slots, status
    {
      && capacity > 0 && slots.Length == capacity && status.Length == capacity
      && DropOldestLog.Valid(log, capacity)
      && writeSequence == |log.history| && readPtr == log.next && dropCounter == log.dropped
      && (forall i :: readPtr <= i < writeSequence ==>
            slots[Slot(i, capacity)] == log.history[i] && status[Slot(i, capacity)] == P.READY)
      && (forall i :: writeSequence <= i < readPtr + capacity ==> status[Slot(i, capacity)] == P.EMPTY)
    }

    constructor (capacity: nat, blank: Record)
      requires capacity > 0
      ensures Valid() && fresh(slots) && fresh(status)
      ensures this.capacity == capacity && log == EMPTY
    {
      this.capacity := capacity;
      slots := new Record[capacity](_ => blank);
      status := new int[capacity](_ => P.EMPTY);
      writeSequence, readPtr, dropCounter := 0, 0, 0;
      log := EMPTY;
    }

    method Push(r: Record) returns (idx: nat)
      requires Valid()
      modifies this, slots, status
      ensures Valid()
      ensures log == AfterPush(old(log), capacity, r) && idx == |old(log).history|
    {
      idx := writeSequence;
      writeSequence := writeSequence + 1;
      var slot := Slot(idx, capacity);
      if idx - readPtr >= capacity {
        dropCounter := dropCounter + 1;
        readPtr := idx - capacity + 1;
      }
      status[slot] := P.WRITING;
      slots[slot] := r;
      status[slot] := P.READY;
      log := AfterPush(log, capacity, r);
      forall i | readPtr <= i < readPtr + capacity && i != idx
        ensures Slot(i, capacity) != slot
      {
        if i < idx { SlotInjective(i, idx, capacity); } else { SlotInjective(idx, i, capacity); }
      }
    }

    /** The reader: consecutive READY slots from readPtr on, each set back to EMPTY. */
    method ReadSlots(count: int) returns (batch: seq<Record>)
      requires Valid()
      modifies status
      ensures |batch| <= |Queue(log)| && batch == Queue(log)[..|batch|]
      ensures |batch| == count || (|batch| == 0 && count < 0) || (|batch| < count && |batch| == |Queue(log)|)
      ensures forall k :: readPtr + |batch| <= k < writeSequence ==> status[Slot(k, capacity)] == P.READY
      ensures forall k :: writeSequence <= k < readPtr + |batch| + capacity ==> status[Slot(k, capacity)] == P.EMPTY
    {
      batch := [];
      var currPtr := readPtr;
      var i := 0;
      while i < count && status[Slot(currPtr, capacity)] == P.READY
        modifies status
        invariant 0 <= i == |batch| && currPtr == readPtr + i
        invariant i <= count || i == 0
        invariant currPtr <= writeSequence && batch == log.history[readPtr..currPtr]
        invariant forall k :: currPtr <= k < writeSequence ==> status[Slot(k, capacity)] == P.READY
        invariant forall k :: writeSequence <= k < currPtr + capacity ==> status[Slot(k, capacity)] == P.EMPTY
      {
        assert currPtr < writeSequence;
        batch := batch + [slots[Slot(currPtr, capacity)]];
        forall k | currPtr < k < currPtr + capacity
          ensures Slot(k, capacity) != Slot(currPtr, capacity)
        {
          SlotInjective(currPtr, k, capacity);
        }
        SlotPeriodic(currPtr, capacity);
        status[Slot(currPtr, capacity)] := P.EMPTY;
        currPtr := currPtr + 1;
        i := i + 1;
      }
    }

    method PopBatch(maxCount: int) returns (batch: seq<Record>, drops: nat)
      requires Valid()
      modifies this, status
      ensures Valid()
      ensures batch == Batch(old(log), maxCount) && log == AfterPop(old(log), maxCount)
      ensures IsFront(batch, Queue(old(log)), maxCount) && Queue(log) == Queue(old(log))[|batch|..]
      ensures drops == log.dropped
    {
      batch := ReadSlots(if maxCount < 128 then maxCount else 128);
      readPtr := readPtr + |batch|;
      log := AfterPop(log, maxCount);
      drops := dropCounter;
    }
  }
}

/** Both rings driven by the same calls. */
module RingEquivalence {
  import opened DropOldestLog
  import LockedRing
  import SequentialLockFreeRing

  /** Over every sequence of pushes and pops the two rings hand out the same records and agree
      on every counter, and both follow the reference log. */
  method RunBoth(capacity: nat, blank: Record, ops: seq<Op>)
    returns (locked: seq<Record>, lockFree: seq<Record>, lockedDrops: nat, lockFreeDrops: nat)
    requires capacity > 0
    ensures locked == lockFree == Outputs(capacity, ops)
    ensures lockedDrops == lockFreeDrops == Run(capacity, ops).dropped
  {
    var a := new LockedRing.FusionRingBuffer(capacity, blank);
    var b := new SequentialLockFreeRing.LockFreeFusionRingBuffer(capacity, blank);
    locked, lockFree := [], [];
    for k := 0 to |ops|
      invariant a.Valid() && b.Valid() && a.capacity == b.capacity == capacity
      invariant fresh(a) && fresh(a.slots) && fresh(b) && fresh(b.slots) && fresh(b.status)
      invariant a.slots != b.slots
      invariant a.log == b.log == Run(capacity, ops[..k])
      invariant locked == lockFree == Outputs(capacity, ops[..k])
    {
      assert ops[..k + 1][..k] == ops[..k];
      match ops[k]
      case Push(r) =>
        a.Push(r);
        var _ := b.Push(r);
      case PopBatch(m) =>
        var x, _ := a.PopBatch(m);
        var y, _ := b.PopBatch(m);
        locked, lockFree := locked + x, lockFree + y;
    }
    assert ops[..|ops|] == ops;
    lockedDrops, lockFreeDrops := a.dropCounter, b.dropCounter;
  }
}
