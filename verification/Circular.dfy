/** Index arithmetic of circular buffers: unbounded counters folded into a fixed number of slots. */
module Circular {

  function Slot(i: int, capacity: nat): (k: nat)
    requires capacity > 0
    ensures k < capacity
  {
    i % capacity
  }

  lemma PositiveMultiple(capacity: nat, k: int)
    requires 0 < capacity * k
    ensures capacity <= capacity * k
  {
    if k >= 1 { assert capacity * k == capacity + capacity * (k - 1); }
  }

  /** Two counters less than a lap apart never share a slot. */
  lemma SlotInjective(t: int, u: int, capacity: nat)
    requires capacity > 0 && t < u < t + capacity
    ensures Slot(t, capacity) != Slot(u, capacity)
  {
    if Slot(t, capacity) == Slot(u, capacity) {
      assert u - t == capacity * (u / capacity) - capacity * (t / capacity) == capacity * (u / capacity - t / capacity);
      PositiveMultiple(capacity, u / capacity - t / capacity);
    }
  }

  lemma SlotUnique(i: int, q: int, k: nat, capacity: nat)
    requires k < capacity && i == capacity * q + k
    ensures Slot(i, capacity) == k
  {
    var d := i / capacity - q;
    assert capacity * d + Slot(i, capacity) == k;
    if d > 0 { PositiveMultiple(capacity, d); }
    if d < 0 {
      assert capacity * (-d) == Slot(i, capacity) - k;
      PositiveMultiple(capacity, -d);
    }
  }

  lemma SlotPeriodic(t: int, capacity: nat)
    requires capacity > 0
    ensures Slot(t + capacity, capacity) == Slot(t, capacity)
  {
    assert t + capacity == capacity * (t / capacity + 1) + Slot(t, capacity);
    SlotUnique(t + capacity, t / capacity + 1, Slot(t, capacity), capacity);
  }

  lemma SlotIdentity(i: nat, capacity: nat)
    requires i < capacity
    ensures Slot(i, capacity) == i
  {
  }

  /** Advancing the slot is advancing the counter. */
  lemma SlotNext(i: int, capacity: nat)
    requires capacity > 0
    ensures Slot(i + 1, capacity) == (Slot(i, capacity) + 1) % capacity
    ensures Slot(i + 1, capacity) == if Slot(i, capacity) + 1 < capacity then Slot(i, capacity) + 1 else 0
  {
    var k, q := Slot(i, capacity), i / capacity;
    assert i == capacity * q + k;
    hide Slot;
    if k + 1 < capacity {
      SlotUnique(i + 1, q, k + 1, capacity);
      SlotIsMod(k + 1, capacity);
      SlotIdentity(k + 1, capacity);
    } else {
      assert capacity * (q + 1) == capacity * q + capacity;
      SlotUnique(i + 1, q + 1, 0, capacity);
      SlotIsMod(capacity, capacity);
      SlotUnique(capacity, 1, 0, capacity);
    }
  }

  lemma SlotIsMod(i: int, capacity: nat)
    requires capacity > 0
    ensures Slot(i, capacity) == i % capacity
  {
  }
}
