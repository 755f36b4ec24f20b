/** hil_frontend_sync.py: the sliding-window drift tracker. The standard deviation is kept as the
    variance it is the root of, and compared through squares. */
module FrontendSync {
  import opened Basics

  datatype State = Nominal | DriftWarning | ClockSlip | CriticalDesync

  datatype Frame = Frame(sdrTimestamp: real, systemTimestamp: real, sequenceNum: int)

  function Drift(x: Frame): real { x.systemTimestamp - x.sdrTimestamp }

  datatype Thresholds = Thresholds(warning: real, slip: real)

  datatype Tracker = Tracker(history: seq<real>, lastSequence: int, totalDroppedFrames: int, recoveryEventsCount: int, state: State)

  datatype Metrics = Metrics(drift: real, variance: real, dropped: int, state: State)

  function Sum(h: seq<real>, k: nat): real
    requires k <= |h|
  {
    if k == 0 then 0.0 else Sum(h, k - 1) + h[k - 1]
  }

  function Mean(h: seq<real>): real
    requires |h| > 0
  {
    Sum(h, |h|) / |h| as real
  }

  function SquaredDeviations(h: seq<real>, mean: real, k: nat): real
    requires k <= |h|
  {
    if k == 0 then 0.0 else SquaredDeviations(h, mean, k - 1) + (h[k - 1] - mean) * (h[k - 1] - mean)
  }

  function Variance(h: seq<real>): real
    requires |h| > 0
  {
    SquaredDeviations(h, Mean(h), |h|) / |h| as real
  }

  /** sqrt(variance) >= threshold. */
  predicate JitterReaches(variance: real, threshold: real) { threshold <= 0.0 || variance >= threshold * threshold }

  function Dropped(lastSeq: int, currSeq: int): nat {
    if lastSeq > 0 && currSeq - lastSeq - 1 > 0 then currSeq - lastSeq - 1 else 0
  }

  const DESYNC_DRIFT := 0.050

  /** h is the window after the shift, newest last. */
  function Verdict(h: seq<real>, dropped: int, t: Thresholds): State
    requires |h| > 0
  {
    var drift := h[|h| - 1];
    if dropped > 10 || (|h| > 1 && Abs(drift - h[0]) > DESYNC_DRIFT) then CriticalDesync
    else if |h| > 1 && Abs(drift - h[|h| - 2]) >= t.slip then ClockSlip
    else if |h| > 1 && JitterReaches(Variance(h), t.warning) then DriftWarning
    else Nominal
  }

  /** The window a frame is judged in: refilled after sequence number 0, then shifted. */
  function NextWindow(history: seq<real>, lastSequence: int, drift: real): seq<real>
    requires |history| > 0
  {
    (if lastSequence == 0 then seq(|history|, _ => drift) else history)[1..] + [drift]
  }

  function Judge(w: Tracker, x: Frame, t: Thresholds): Metrics
    requires |w.history| > 0
  {
    var h := NextWindow(w.history, w.lastSequence, Drift(x));
    var dropped := Dropped(w.lastSequence, x.sequenceNum);
    Metrics(Drift(x), Variance(h), dropped, Verdict(h, dropped, t))
  }

  function Track(w: Tracker, x: Frame, t: Thresholds): (w': Tracker)
    requires |w.history| > 0
    ensures |w'.history| == |w.history|
  {
    var m := Judge(w, x, t);
    Tracker(NextWindow(w.history, w.lastSequence, Drift(x)), x.sequenceNum, w.totalDroppedFrames + m.dropped,
      w.recoveryEventsCount + (if w.state != Nominal && m.state == Nominal then 1 else 0), m.state)
  }

  // ---- constant drift ----

  lemma {:induction false} SumOfConstant(h: seq<real>, d: real, k: nat)
    requires k <= |h| && forall i :: 0 <= i < k ==> h[i] == d
    ensures Sum(h, k) == k as real * d
  {
    if k > 0 {
      SumOfConstant(h, d, k - 1);
      assert k as real == (k - 1) as real + 1.0;
      assert ((k - 1) as real + 1.0) * d == (k - 1) as real * d + d;
    }
  }

  lemma {:induction false} NoDeviations(h: seq<real>, d: real, k: nat)
    requires k <= |h| && forall i :: 0 <= i < k ==> h[i] == d
    ensures SquaredDeviations(h, d, k) == 0.0
  {
    if k > 0 { NoDeviations(h, d, k - 1); }
  }

  lemma Divide(n: real, d: real)
    requires n > 0.0
    ensures n * d / n == d && 0.0 / n == 0.0
  {
  }

  /** A window of one value has no jitter, */
  lemma ConstantWindow(h: seq<real>, d: real)
    requires |h| > 0 && forall i :: 0 <= i < |h| ==> h[i] == d
    ensures Variance(h) == 0.0
  {
    var n := |h| as real;
    SumOfConstant(h, d, |h|);
    Divide(n, d);
    assert Mean(h) == n * d / n == d;
    NoDeviations(h, d, |h|);
    assert Variance(h) == 0.0 / n;
  }

  /** and is nominal when frames follow one another. */
  lemma ConstantIsNominal(h: seq<real>, d: real, dropped: nat, t: Thresholds)
    requires |h| > 0 && forall i :: 0 <= i < |h| ==> h[i] == d
    requires dropped <= 10 && t.warning > 0.0 && t.slip > 0.0
    ensures Verdict(h, dropped, t) == Nominal
  {
    ConstantWindow(h, d);
    assert t.warning * t.warning > 0.0;
  }

  // ---- every window ----

  function SumOfSquares(h: seq<real>, k: nat): real
    requires k <= |h|
  {
    if k == 0 then 0.0 else SumOfSquares(h, k - 1) + h[k - 1] * h[k - 1]
  }

  lemma {:induction false} DeviationsExpand(h: seq<real>, mean: real, k: nat)
    requires k <= |h|
    ensures SquaredDeviations(h, mean, k) == SumOfSquares(h, k) - 2.0 * (mean * Sum(h, k)) + k as real * (mean * mean)
  {
    if k > 0 {
      DeviationsExpand(h, mean, k - 1);
      DeviationStep(h[k - 1], mean, Sum(h, k - 1), (k - 1) as real);
      assert k as real == (k - 1) as real + 1.0;
    }
  }

  lemma DeviationStep(x: real, m: real, s: real, k: real)
    ensures (x - m) * (x - m) == x * x - 2.0 * (m * x) + m * m
    ensures m * (s + x) == m * s + m * x
    ensures (k + 1.0) * (m * m) == k * (m * m) + m * m
  {
  }

  lemma Averages(h: seq<real>)
    requires |h| > 0
    ensures Mean(h) * |h| as real == Sum(h, |h|) && Variance(h) * |h| as real == SquaredDeviations(h, Mean(h), |h|)
  {
    hide Sum, SquaredDeviations;
    Quotient(Sum(h, |h|), |h| as real);
    Quotient(SquaredDeviations(h, Mean(h), |h|), |h| as real);
  }

  lemma Quotient(p: real, n: real)
    requires n > 0.0
    ensures p / n * n == p
  {
  }

  /** The variance by moments. */
  lemma VarianceByMoments(h: seq<real>)
    requires |h| > 0
    ensures var n, s := |h| as real, Sum(h, |h|); n * (n * Variance(h)) == n * SumOfSquares(h, |h|) - s * s
  {
    hide Sum, SquaredDeviations, SumOfSquares, Mean, Variance;
    Averages(h);
    DeviationsExpand(h, Mean(h), |h|);
    MomentArithmetic(|h| as real, Sum(h, |h|), SumOfSquares(h, |h|), Mean(h), Variance(h), SquaredDeviations(h, Mean(h), |h|));
  }

  lemma MomentArithmetic(n: real, s: real, q: real, mean: real, v: real, d: real)
    requires n > 0.0 && mean * n == s && v * n == d && d == q - 2.0 * (mean * s) + n * (mean * mean)
    ensures n * (n * v) == n * q - s * s
  {
    assert n * (mean * mean) == s * mean;
    assert d == q - mean * s;
    assert n * (mean * s) == s * s;
  }

  /** Each verdict, for every window of two or more: packet loss or a drift of more than 50 ms over
      the window, else a jump of `slip` since the last frame, else a standard deviation of `warning`,
      by moments (any reaches a warning level of 0 or less). */
  lemma VerdictsExactly(h: seq<real>, dropped: nat, t: Thresholds)
    requires |h| > 1
    ensures var n, s, q := |h| as real, Sum(h, |h|), SumOfSquares(h, |h|);
      var d := h[|h| - 1];
      var lost := dropped > 10 || d - h[0] > 0.050 || h[0] - d > 0.050;
      var jumped := d - h[|h| - 2] >= t.slip || h[|h| - 2] - d >= t.slip;
      var spread := t.warning <= 0.0 || n * q - s * s >= n * t.warning * (n * t.warning);
      && (Verdict(h, dropped, t) == CriticalDesync <==> lost)
      && (Verdict(h, dropped, t) == ClockSlip <==> !lost && jumped)
      && (Verdict(h, dropped, t) == DriftWarning <==> !lost && !jumped && spread)
      && (Verdict(h, dropped, t) == Nominal <==> !lost && !jumped && !spread)
  {
    hide Sum, SumOfSquares, Variance;
    VarianceByMoments(h);
    SpreadArithmetic(|h| as real, t.warning, Variance(h));
  }

  lemma SpreadArithmetic(n: real, w: real, v: real)
    requires n > 0.0
    ensures n * (n * v) >= n * w * (n * w) <==> v >= w * w
  {
    var a, b, u := n * v, n * (w * w), w * w;
    FactorOrder(n, v, u);
    FactorOrder(n, a, b);
    FourFactors(n, w);
  }

  lemma FourFactors(n: real, w: real)
    ensures n * w * (n * w) == n * (n * (w * w))
  {
  }

  lemma FactorOrder(m: real, v: real, u: real)
    requires m > 0.0
    ensures m * v >= m * u <==> v >= u
  {
    assert m * (v - u) == m * v - m * u;
    if v >= u { assert m * (v - u) >= 0.0; } else { assert m * (u - v) > 0.0; }
  }

  /** Frames count as dropped only after a positive sequence number, and then they fill the gap. */
  lemma DroppedExactly(lastSeq: int, currSeq: int)
    ensures lastSeq > 0 && currSeq > lastSeq ==> lastSeq + Dropped(lastSeq, currSeq) + 1 == currSeq
    ensures lastSeq <= 0 || currSeq <= lastSeq ==> Dropped(lastSeq, currSeq) == 0
  {
  }

  /** In a window of one, only packet loss is seen. */
  lemma SingleVerdict(h: seq<real>, dropped: nat, t: Thresholds)
    requires |h| == 1
    ensures Verdict(h, dropped, t) == if dropped > 10 then CriticalDesync else Nominal
  {
  }

  // ---- the window over a run ----

  function Drifts(frames: seq<Frame>): (d: seq<real>)
    ensures |d| == |frames| && forall k :: 0 <= k < |frames| ==> d[k] == Drift(frames[k])
  {
    seq(|frames|, k requires 0 <= k < |frames| => Drift(frames[k]))
  }

  /** The window holds the newest drifts of the run, after the ones it started with; a tracker that
      has seen sequence number 0 last starts with copies of the first drift. */
  lemma {:induction false} WindowHoldsTheLatest(w: Tracker, frames: seq<Frame>, t: Thresholds)
    requires |w.history| > 0 && |frames| > 0
    requires forall k :: 0 <= k < |frames| - 1 ==> frames[k].sequenceNum != 0
    ensures var start := if w.lastSequence == 0 then seq(|w.history|, _ => Drift(frames[0])) else w.history;
      TrackAll(w, frames, t).history == (start + Drifts(frames))[|frames|..]
  {
    hide Judge;
    var k := |frames| - 1;
    var start := if w.lastSequence == 0 then seq(|w.history|, _ => Drift(frames[0])) else w.history;
    if k == 0 {
      assert frames[..0] == [];
    } else {
      WindowHoldsTheLatest(w, frames[..k], t);
      LastTracked(w, frames[..k], t);
      assert Drifts(frames) == Drifts(frames[..k]) + [Drift(frames[k])];
      assert (start + Drifts(frames[..k]))[k..][1..] == (start + Drifts(frames[..k]))[k + 1..];
    }
  }

  lemma LastTracked(w: Tracker, frames: seq<Frame>, t: Thresholds)
    requires |w.history| > 0 && |frames| > 0
    ensures TrackAll(w, frames, t).lastSequence == frames[|frames| - 1].sequenceNum
  {
  }

  /** Whether frame k ends a stretch of other verdicts. */
  ghost predicate Recovers(w: Tracker, frames: seq<Frame>, t: Thresholds, k: nat)
    requires |w.history| > 0 && k < |frames|
  {
    TrackAll(w, frames[..k], t).state != Nominal && TrackAll(w, frames[..k + 1], t).state == Nominal
  }

  ghost function Returns(w: Tracker, frames: seq<Frame>, t: Thresholds, n: nat): (ks: set<nat>)
    requires |w.history| > 0 && n <= |frames|
  {
    set k: nat | k < n && Recovers(w, frames, t, k)
  }

  lemma ReturnsStep(w: Tracker, frames: seq<Frame>, t: Thresholds, n: nat)
    requires |w.history| > 0 && n < |frames|
    ensures |Returns(w, frames, t, n + 1)| == |Returns(w, frames, t, n)| + if Recovers(w, frames, t, n) then 1 else 0
  {
    hide Recovers;
    assert Returns(w, frames, t, n + 1) == Returns(w, frames, t, n) + (if Recovers(w, frames, t, n) then {n} else {});
  }

  lemma CountStep(w: Tracker, frames: seq<Frame>, t: Thresholds, n: nat)
    requires |w.history| > 0 && n < |frames|
    ensures TrackAll(w, frames[..n + 1], t).recoveryEventsCount
         == TrackAll(w, frames[..n], t).recoveryEventsCount + if Recovers(w, frames, t, n) then 1 else 0
  {
    hide Judge;
    assert frames[..n + 1][..n] == frames[..n];
  }

  /** The recovery counter counts the returns to nominal. */
  lemma {:induction false} RecoveriesAreReturns(w: Tracker, frames: seq<Frame>, t: Thresholds, n: nat)
    requires |w.history| > 0 && n <= |frames|
    ensures TrackAll(w, frames[..n], t).recoveryEventsCount == w.recoveryEventsCount + |Returns(w, frames, t, n)|
  {
    hide TrackAll, Recovers;
    if n == 0 {
      assert Returns(w, frames, t, 0) == {};
      NothingTracked(w, t);
      assert frames[..0] == [];
    } else {
      RecoveriesAreReturns(w, frames, t, n - 1);
      ReturnsStep(w, frames, t, n - 1);
      CountStep(w, frames, t, n - 1);
    }
  }

  lemma NothingTracked(w: Tracker, t: Thresholds)
    requires |w.history| > 0
    ensures TrackAll(w, [], t) == w
  {
  }

  // ---- counting the frames ----

  function TrackAll(w: Tracker, frames: seq<Frame>, t: Thresholds): (w': Tracker)
    requires |w.history| > 0
    ensures |w'.history| == |w.history|
  {
    if |frames| == 0 then w else Track(TrackAll(w, frames[..|frames| - 1], t), frames[|frames| - 1], t)
  }

  /** Over increasing positive sequence numbers, frames received and frames counted as dropped
      make up the whole range. */
  lemma {:induction false} DropsAccount(w: Tracker, frames: seq<Frame>, t: Thresholds)
    requires |w.history| > 0 && |frames| > 0 && w.lastSequence > 0 && w.lastSequence < frames[0].sequenceNum
    requires forall i, j :: 0 <= i < j < |frames| ==> frames[i].sequenceNum < frames[j].sequenceNum
    ensures TrackAll(w, frames, t).lastSequence == frames[|frames| - 1].sequenceNum
    ensures TrackAll(w, frames, t).totalDroppedFrames - w.totalDroppedFrames + |frames|
         == frames[|frames| - 1].sequenceNum - w.lastSequence
  {
    var k := |frames| - 1;
    if k > 0 {
      DropsAccount(w, frames[..k], t);
    } else {
      assert frames[..k] == [];
    }
  }

  // ---- the tracker ----

  class SyncTracker {
    const thresholds: Thresholds
    const driftHistory: array<real>
    var lastSequence: int
    var totalDroppedFrames: int
    var recoveryEventsCount: int
    var currentState: State

    ghost predicate Valid() { driftHistory.Length > 0 }

    function Model(): Tracker
      reads this, driftHistory
    {
      Tracker(driftHistory[..], lastSequence, totalDroppedFrames, recoveryEventsCount, currentState)
    }

    constructor (historyWindow: nat, thresholds: Thresholds)
      requires historyWindow > 0
      ensures Valid() && fresh(driftHistory) && this.thresholds == thresholds && driftHistory.Length == historyWindow
      ensures lastSequence == 0 && totalDroppedFrames == 0 && recoveryEventsCount == 0 && currentState == Nominal
    {
      this.thresholds := thresholds;
      driftHistory := new real[historyWindow](_ => 0.0);
      lastSequence, totalDroppedFrames, recoveryEventsCount, currentState := 0, 0, 0, Nominal;
    }

    /** The oldest drift leaves the window, the new one enters. */
    method Slide(drift: real)
      requires Valid()
      modifies driftHistory
      ensures driftHistory[..] == old(driftHistory[..])[1..] + [drift]
    {
      var n := driftHistory.Length;
      for i := 0 to n - 1
        invariant forall k :: 0 <= k < i ==> driftHistory[k] == old(driftHistory[k + 1])
        invariant forall k :: i <= k < n ==> driftHistory[k] == old(driftHistory[k])
      {
        driftHistory[i] := driftHistory[i + 1];
      }
      driftHistory[n - 1] := drift;
    }

    method Spread() returns (variance: real)
      requires Valid()
      ensures variance == Variance(driftHistory[..])
    {
      var n := driftHistory.Length;
      ghost var h := driftHistory[..];
      var sumDrift := 0.0;
      for i := 0 to n
        invariant sumDrift == Sum(h, i)
      {
        sumDrift := sumDrift + driftHistory[i];
      }
      var meanDrift := sumDrift / n as real;
      var sumSqDiff := 0.0;
      for i := 0 to n
        invariant sumSqDiff == SquaredDeviations(h, meanDrift, i)
      {
        var diff := driftHistory[i] - meanDrift;
        sumSqDiff := sumSqDiff + diff * diff;
      }
      variance := sumSqDiff / n as real;
    }

    method EvaluateStride(x: Frame) returns (m: Metrics)
      requires Valid()
      modifies this, driftHistory
      ensures Valid() && m == Judge(old(Model()), x, thresholds) && Model() == Track(old(Model()), x, thresholds)
    {
      hide Variance;
      ghost var before := Model();
      if lastSequence == 0 {
        Fill(Drift(x));
      }
      var dropped := 0;
      if lastSequence > 0 {
        var gap := x.sequenceNum - lastSequence - 1;
        if gap > 0 { dropped := gap; }
      }
      var driftVal := Drift(x);
      Slide(driftVal);
      ghost var h := driftHistory[..];
      assert h == NextWindow(before.history, before.lastSequence, driftVal);
      var variance := Spread();
      var n := driftHistory.Length;
      var verdict := Nominal;
      if n > 1 {
        var driftJump := Abs(driftVal - driftHistory[n - 2]);
        if driftJump >= thresholds.slip {
          verdict := ClockSlip;
        } else if JitterReaches(variance, thresholds.warning) {
          verdict := DriftWarning;
        }
      }
      if dropped > 10 || (n > 1 && Abs(driftVal - driftHistory[0]) > DESYNC_DRIFT) {
        verdict := CriticalDesync;
      }
      m := Metrics(driftVal, variance, dropped, verdict);
      if currentState != Nominal && verdict == Nominal {
        recoveryEventsCount := recoveryEventsCount + 1;
      }
      currentState := verdict;
      lastSequence := x.sequenceNum;
      totalDroppedFrames := totalDroppedFrames + dropped;
    }

    method Fill(v: real)
      modifies driftHistory
      ensures driftHistory[..] == seq(driftHistory.Length, _ => v)
    {
      for i := 0 to driftHistory.Length
        invariant forall k :: 0 <= k < i ==> driftHistory[k] == v
      {
        driftHistory[i] := v;
      }
    }
  }
}
