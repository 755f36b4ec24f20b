/** mitigation_hysteresis_filter.py: the debounce filter over a circular action history. */
module Debounce {
  import opened Circular

  // ---- what the filter should do, from the raw actions alone ----

  datatype Windows = Windows(up: int, down: int, historyLen: nat)

  /** The number of equal raw actions that switch the output to b. A window below one counts as
      one, and one beyond the history as the whole history. */
  function Needed(w: Windows, b: int): (n: nat)
    requires w.historyLen > 0
    ensures 1 <= n <= w.historyLen
  {
    var asked := if b != 0 then w.up else w.down;
    if asked < 1 then 1 else if asked > w.historyLen then w.historyLen else asked
  }

  /** The raw action at stride i; before the first stride, clean. */
  function RawAt(raws: seq<int>, i: int): int
    requires i < |raws|
  {
    if i < 0 then 0 else raws[i]
  }

  /** The last n raw actions are all b. */
  ghost predicate AllLast(raws: seq<int>, n: nat, b: int) {
    forall i :: |raws| - n <= i < |raws| ==> RawAt(raws, i) == b
  }

  ghost predicate Switches(w: Windows, raws: seq<int>)
    requires w.historyLen > 0 && |raws| > 0
  {
    var b := raws[|raws| - 1];
    b != Output(w, raws[..|raws| - 1]) && AllLast(raws, Needed(w, b), b)
  }

  /** The filtered action after these raw actions. */
  ghost function Output(w: Windows, raws: seq<int>): int
    requires w.historyLen > 0
    decreases |raws|, 0
  {
    if |raws| == 0 then 0
    else
      var b, before := raws[|raws| - 1], Output(w, raws[..|raws| - 1]);
      if b != before && AllLast(raws, Needed(w, b), b) then b else before
  }

  /** Strides since the last switch (or the start). */
  ghost function Age(w: Windows, raws: seq<int>): nat
    requires w.historyLen > 0
  {
    if |raws| == 0 then 0
    else if Switches(w, raws) then 1 else Age(w, raws[..|raws| - 1]) + 1
  }

  lemma OutputNext(w: Windows, raws: seq<int>)
    requires w.historyLen > 0 && |raws| > 0
    ensures var b, front := raws[|raws| - 1], raws[..|raws| - 1];
      var switch := b != Output(w, front) && AllLast(raws, Needed(w, b), b);
      Output(w, raws) == (if switch then b else Output(w, front)) && Age(w, raws) == (if switch then 1 else Age(w, front) + 1)
  {
  }

  // ---- consequences ----

  /** When the output switches, from the window that was asked for: up_window for an alert and
      down_window for the all-clear, one if below one, and the whole history if beyond it. */
  lemma SwitchesAfterItsWindow(w: Windows, raws: seq<int>)
    requires w.historyLen > 0 && |raws| > 0
    ensures var t, b := |raws|, raws[|raws| - 1];
      var window := if b == 0 then w.down else w.up;
      var shown := Output(w, raws[..t - 1]);
      && (window <= 1 ==> (Switches(w, raws) <==> b != shown))
      && (1 <= window <= w.historyLen ==> (Switches(w, raws) <==> b != shown && AllLast(raws, window, b)))
      && (window >= w.historyLen ==> (Switches(w, raws) <==> b != shown && AllLast(raws, w.historyLen, b)))
  {
  }

  /** Enough equal requests are always granted. */
  lemma RequestsAreGranted(w: Windows, raws: seq<int>, b: int)
    requires w.historyLen > 0 && |raws| > 0 && AllLast(raws, Needed(w, b), b)
    ensures Output(w, raws) == b
  {
    assert RawAt(raws, |raws| - 1) == b;
  }

  /** No switch in strides s+1 .. t: the output stays. */
  lemma {:induction false} NoSwitchNoChange(w: Windows, raws: seq<int>, s: nat, t: nat)
    requires w.historyLen > 0 && s <= t <= |raws|
    requires forall i :: s < i <= t ==> !Switches(w, raws[..i])
    ensures Output(w, raws[..t]) == Output(w, raws[..s])
    decreases t
  {
    if s < t {
      NoSwitchNoChange(w, raws, s, t - 1);
      assert raws[..t][..t - 1] == raws[..t - 1];
      assert !Switches(w, raws[..t]);
    }
  }

  /** A switch to b comes at least Needed(b) strides after the switch before it, */
  lemma SwitchesAreApart(w: Windows, raws: seq<int>, s: nat, t: nat)
    requires w.historyLen > 0 && 0 < s < t <= |raws| && Switches(w, raws[..s]) && Switches(w, raws[..t])
    requires forall i :: s < i < t ==> !Switches(w, raws[..i])
    ensures t - s >= Needed(w, raws[t - 1])
  {
    var b := raws[t - 1];
    NoSwitchNoChange(w, raws, s, t - 1);
    assert raws[..t][..t - 1] == raws[..t - 1];
    assert Output(w, raws[..s]) == raws[s - 1];
    assert t - s < Needed(w, b) ==> RawAt(raws[..t], s - 1) == b;
  }

  /** and the first one at least that long after the start. */
  lemma FirstSwitchIsLate(w: Windows, raws: seq<int>, t: nat)
    requires w.historyLen > 0 && 0 < t <= |raws| && Switches(w, raws[..t])
    requires forall i :: 0 < i < t ==> !Switches(w, raws[..i])
    ensures t >= Needed(w, raws[t - 1])
  {
    var b := raws[t - 1];
    NoSwitchNoChange(w, raws, 0, t - 1);
    assert raws[..t][..t - 1] == raws[..t - 1];
    assert t < Needed(w, b) ==> RawAt(raws[..t], -1) == b;
  }

  /** The duration counts the strides since the last switch, that stride included. */
  lemma {:induction false} AgeCountsFromTheSwitch(w: Windows, raws: seq<int>, s: nat)
    requires w.historyLen > 0 && 0 < s <= |raws| && Switches(w, raws[..s])
    requires forall i :: s < i <= |raws| ==> !Switches(w, raws[..i])
    ensures Age(w, raws) == |raws| - s + 1
    decreases |raws|
  {
    if s == |raws| {
      assert raws[..s] == raws;
    } else {
      var front := raws[..|raws| - 1];
      assert forall i :: 0 <= i <= |front| ==> front[..i] == raws[..i];
      assert raws[..|raws|] == raws;
      AgeCountsFromTheSwitch(w, front, s);
    }
  }

  // ---- the filter ----

  class HysteresisFilter {
    const windows: Windows
    const actionHistory: array<int>
    var historyIdx: nat
    var currentFilteredAction: int
    var actionDuration: nat
    ghost var raws: seq<int>

    ghost predicate Valid()
      reads this, actionHistory
    {
      windows.historyLen > 0 && actionHistory.Length == windows.historyLen
      && historyIdx == Slot(|raws|, windows.historyLen)
      && currentFilteredAction == Output(windows, raws) && actionDuration == Age(windows, raws)
      && Remembers(raws)
    }

    /** The array holds the last historyLen raw actions. */
    ghost predicate Remembers(r: seq<int>)
      requires actionHistory.Length == windows.historyLen > 0
      reads actionHistory
    {
      forall i :: |r| - windows.historyLen <= i < |r| ==> actionHistory[Slot(i, windows.historyLen)] == RawAt(r, i)
    }

    constructor (windows: Windows)
      requires windows.historyLen > 0
      ensures Valid() && raws == [] && this.windows == windows && fresh(actionHistory)
    {
      this.windows := windows;
      actionHistory := new int[windows.historyLen](_ => 0);
      historyIdx, currentFilteredAction, actionDuration, raws := 0, 0, 0, [];
    }

    /** Walks back through the ring; true exactly when the last Needed(raw) actions are all raw. */
    method IsConsecutive(rawAction: int, window: int) returns (consecutive: bool)
      requires actionHistory.Length == windows.historyLen > 0 && |raws| > 0
      requires historyIdx == Slot(|raws| - 1, windows.historyLen) && Remembers(raws) && raws[|raws| - 1] == rawAction
      requires window == if rawAction != 0 then windows.up else windows.down
      ensures consecutive <==> AllLast(raws, Needed(windows, rawAction), rawAction)
    {
      hide Slot;
      var n := windows.historyLen;
      var needed := Needed(windows, rawAction);
      consecutive := true;
      var idx: int := historyIdx;
      var k: nat := 0;
      while k < window
        invariant k == 0 || k <= window
        invariant idx == Slot(|raws| - 1 - k, n)
        invariant forall i :: |raws| - k <= i < |raws| && i >= |raws| - n ==> RawAt(raws, i) == rawAction
      {
        FoldBack(|raws| - 1 - k, k, n);
        ghost var j := |raws| - 1 - k % n;
        assert actionHistory[idx] == RawAt(raws, j);
        if actionHistory[idx] != rawAction {
          consecutive := false;
          assert k < n;
          return;
        }
        SlotPrevious(|raws| - 1 - k, n);
        assert (idx - 1 + n) % n == Slot(|raws| - 1 - (k + 1), n);
        idx := (idx - 1 + n) % n;
        k := k + 1;
      }
    }

    /** The raw action goes into the ring, over the oldest. */
    method Store(rawAction: int)
      requires Valid()
      modifies this`raws, actionHistory
      ensures raws == old(raws) + [rawAction] && Remembers(raws)
    {
      ghost var before := raws;
      forall i | |before| - windows.historyLen < i < |before|
        ensures Slot(i, windows.historyLen) != Slot(|before|, windows.historyLen)
      {
        SlotInjective(i, |before|, windows.historyLen);
      }
      actionHistory[historyIdx] := rawAction;
      RememberMore(before, rawAction);
      raws := raws + [rawAction];
    }

    method FilterAction(rawAction: int) returns (filtered: int)
      requires Valid()
      modifies this, actionHistory
      ensures Valid() && raws == old(raws) + [rawAction]
      ensures filtered == currentFilteredAction == Output(windows, raws) && actionDuration == Age(windows, raws)
    {
      hide Slot, Output, Age, Remembers, AllLast, Switches;
      ghost var before := raws;
      Store(rawAction);
      assert raws[..|raws| - 1] == before;
      OutputNext(windows, raws);
      SlotNext(|before|, windows.historyLen);
      var consecutive := false;
      if rawAction != currentFilteredAction {
        if rawAction != 0 {
          consecutive := IsConsecutive(rawAction, windows.up);
        } else {
          consecutive := IsConsecutive(rawAction, windows.down);
        }
      }
      if consecutive {
        currentFilteredAction := rawAction;
        actionDuration := 1;
      } else {
        actionDuration := actionDuration + 1;
      }
      historyIdx := (historyIdx + 1) % windows.historyLen;
      filtered := currentFilteredAction;
    }

    lemma RememberMore(r: seq<int>, raw: int)
      requires actionHistory.Length == windows.historyLen > 0
      requires actionHistory[Slot(|r|, windows.historyLen)] == raw
      requires forall i :: |r| - windows.historyLen < i < |r| ==> actionHistory[Slot(i, windows.historyLen)] == RawAt(r, i)
      ensures Remembers(r + [raw])
    {
    }
  }

  lemma FoldBack(i: int, k: nat, n: nat)
    requires n > 0
    ensures Slot(i, n) == Slot(i + k - k % n, n)
  {
    var q, r := k / n, Slot(i, n);
    assert k - k % n == n * q;
    assert i == n * (i / n) + r;
    assert i + n * q == n * (i / n + q) + r;
    SlotUnique(i + n * q, i / n + q, r, n);
  }

  lemma SlotPrevious(i: int, n: nat)
    requires n > 0
    ensures Slot(i - 1, n) == (Slot(i, n) - 1 + n) % n
  {
    var p := Slot(i - 1, n);
    SlotNext(i - 1, n);
    SlotPeriodic(p, n);
    SlotIdentity(p, n);
    SlotIdentity(n - 1, n);
  }
}
