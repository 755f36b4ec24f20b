/** hil_flow_controller.py: throttling, recovery bursts and the rate factor (in hundredths). */
module FlowControl {
  import opened FrontendSync

  datatype Action = Continue | Hold | Reduce | Burst

  datatype Controller = Controller(tracker: Tracker, lastAction: Action, consecutiveNominalCount: nat, rate: int)

  function Min(a: int, b: int): int { if a < b then a else b }
  function Max(a: int, b: int): int { if a < b then b else a }

  predicate Throttles(a: Action) { a == Hold || a == Reduce }

  /** _evaluate_flow_control_jit: the action and the next nominal count. */
  function Decide(state: State, dropped: int, lastAction: Action, count: nat): (Action, nat) {
    if state == CriticalDesync || dropped > 5 then (Reduce, 0)
    else if state == ClockSlip then (Hold, 0)
    else if state == DriftWarning then (Reduce, 0)
    else if Throttles(lastAction) then (Burst, 0)
    else if lastAction == Burst then (if count < 5 then (Burst, count + 1) else (Continue, 0))
    else (Continue, 0)
  }

  function NextRate(action: Action, rate: int): int {
    match action
    case Reduce => Max(80, rate - 5)
    case Burst => Min(100, rate + 5)
    case Hold => rate
    case Continue => rate
  }

  function Step(c: Controller, x: Frame, t: Thresholds): (c': Controller)
    requires |c.tracker.history| > 0
    ensures |c'.tracker.history| == |c.tracker.history|
  {
    var m := Judge(c.tracker, x, t);
    var (action, count) := Decide(m.state, m.dropped, c.lastAction, c.consecutiveNominalCount);
    Controller(Track(c.tracker, x, t), action, count, NextRate(action, c.rate))
  }

  /** The first n frames. */
  function Run(c: Controller, frames: seq<Frame>, n: nat, t: Thresholds): (c': Controller)
    requires |c.tracker.history| > 0 && n <= |frames|
    ensures |c'.tracker.history| == |c.tracker.history|
  {
    if n == 0 then c else Step(Run(c, frames, n - 1, t), frames[n - 1], t)
  }

  // ---- every reachable state ----

  predicate Inv(c: Controller) {
    80 <= c.rate <= 100 && c.consecutiveNominalCount <= 5
    && (c.lastAction == Continue ==> c.rate == 100 && c.consecutiveNominalCount == 0)
    && (Throttles(c.lastAction) ==> c.consecutiveNominalCount == 0)
    && (c.lastAction == Burst ==> c.rate >= Min(100, 85 + 5 * c.consecutiveNominalCount))
  }

  lemma StepKeepsInv(c: Controller, x: Frame, t: Thresholds)
    requires |c.tracker.history| > 0 && Inv(c)
    ensures Inv(Step(c, x, t))
  {
  }

  /** Whatever the frames: the rate stays within 0.80 and 1.00, and is 1.00 in nominal operation. */
  lemma {:induction false} RunKeepsInv(c: Controller, frames: seq<Frame>, n: nat, t: Thresholds)
    requires |c.tracker.history| > 0 && Inv(c) && n <= |frames|
    ensures Inv(Run(c, frames, n, t))
  {
    if n > 0 {
      RunKeepsInv(c, frames, n - 1, t);
      StepKeepsInv(Run(c, frames, n - 1, t), frames[n - 1], t);
    }
  }

  // ---- what the verdict does ----

  /** Which verdicts hold, which reduce and which let traffic through, whatever came before. */
  lemma ActionFollowsVerdict(c: Controller, x: Frame, t: Thresholds)
    requires |c.tracker.history| > 0
    ensures var m, a := Judge(c.tracker, x, t), Step(c, x, t).lastAction;
      && (a == Hold <==> m.state == ClockSlip && m.dropped <= 5)
      && (a == Reduce <==> m.dropped > 5 || m.state == CriticalDesync || m.state == DriftWarning)
      && (a == Burst || a == Continue <==> m.state == Nominal && m.dropped <= 5)
  {
    hide Judge;
  }

  /** Strides first .. first + k - 1 all end with the action a. */
  ghost predicate Keeps(c: Controller, frames: seq<Frame>, first: nat, k: nat, t: Thresholds, a: Action)
    requires |c.tracker.history| > 0 && first + k <= |frames|
  {
    forall m :: first < m <= first + k ==> Run(c, frames, m, t).lastAction == a
  }

  /** k reducing strides in a row take 5 hundredths each off the rate, down to 80; k bursts put 5
      each back, up to 100; holding and continuing leave it. */
  lemma {:induction false} RateFollowsActions(c: Controller, frames: seq<Frame>, first: nat, k: nat, t: Thresholds, a: Action)
    requires |c.tracker.history| > 0 && Inv(c) && first + k <= |frames| && Keeps(c, frames, first, k, t, a)
    ensures var before, after := Run(c, frames, first, t).rate, Run(c, frames, first + k, t).rate;
      && (a == Reduce ==> after == if before - 5 * k < 80 then 80 else before - 5 * k)
      && (a == Burst ==> after == if before + 5 * k > 100 then 100 else before + 5 * k)
      && (a == Hold || a == Continue ==> after == before)
  {
    hide Step, Run;
    RunKeepsInv(c, frames, first, t);
    if k > 0 {
      RateFollowsActions(c, frames, first, k - 1, t, a);
      var n := first + k;
      assert Run(c, frames, n, t).lastAction == a;
      RunNext(c, frames, n, t);
      RateStep(Run(c, frames, n - 1, t), frames[n - 1], t);
    }
  }

  lemma RateStep(c: Controller, x: Frame, t: Thresholds)
    requires |c.tracker.history| > 0
    ensures var s := Step(c, x, t);
      && (s.lastAction == Reduce ==> s.rate == if c.rate - 5 < 80 then 80 else c.rate - 5)
      && (s.lastAction == Burst ==> s.rate == if c.rate + 5 > 100 then 100 else c.rate + 5)
      && (s.lastAction == Hold || s.lastAction == Continue ==> s.rate == c.rate)
  {
    hide Judge, Track;
  }

  // ---- six bursts ----

  lemma BurstStep(c: Controller, x: Frame, t: Thresholds)
    requires |c.tracker.history| > 0 && Step(c, x, t).lastAction == Burst
    ensures Throttles(c.lastAction) ==> Step(c, x, t).consecutiveNominalCount == 0
    ensures c.lastAction == Burst ==> Step(c, x, t).consecutiveNominalCount == c.consecutiveNominalCount + 1 <= 5
  {
    hide Judge, Track;
  }

  lemma ContinueStep(c: Controller, x: Frame, t: Thresholds)
    requires |c.tracker.history| > 0 && Step(c, x, t).lastAction == Continue
    ensures !Throttles(c.lastAction) && (c.lastAction == Burst ==> c.consecutiveNominalCount >= 5)
  {
    hide Judge, Track;
  }

  lemma RunNext(c: Controller, frames: seq<Frame>, n: nat, t: Thresholds)
    requires |c.tracker.history| > 0 && 0 < n <= |frames|
    ensures Run(c, frames, n, t) == Step(Run(c, frames, n - 1, t), frames[n - 1], t)
  {
  }

  lemma {:induction false} BurstsCount(c: Controller, frames: seq<Frame>, i: nat, k: nat, t: Thresholds)
    requires |c.tracker.history| > 0 && 0 < k && i + k <= |frames|
    requires Throttles(Run(c, frames, i, t).lastAction)
    requires forall m :: i < m <= i + k ==> Run(c, frames, m, t).lastAction == Burst
    ensures k <= 6 && Run(c, frames, i + k, t).consecutiveNominalCount == k - 1
  {
    hide Step, Run;
    RunNext(c, frames, i + k, t);
    assert Run(c, frames, i + k, t).lastAction == Burst;
    if k > 1 {
      BurstsCount(c, frames, i, k - 1, t);
      assert Run(c, frames, i + k - 1, t).lastAction == Burst;
    }
    BurstStep(Run(c, frames, i + k - 1, t), frames[i + k - 1], t);
  }

  /** From a throttle to the next nominal stride, with no throttle between: exactly six bursts. */
  lemma SixBursts(c: Controller, frames: seq<Frame>, i: nat, j: nat, t: Thresholds)
    requires |c.tracker.history| > 0 && i < j <= |frames|
    requires Throttles(Run(c, frames, i, t).lastAction) && Run(c, frames, j, t).lastAction == Continue
    requires forall m :: i < m < j ==> Run(c, frames, m, t).lastAction != Continue && !Throttles(Run(c, frames, m, t).lastAction)
    ensures j == i + 7 && forall m :: i < m < j ==> Run(c, frames, m, t).lastAction == Burst
  {
    hide Step, Run;
    RunNext(c, frames, j, t);
    var before := Run(c, frames, j - 1, t);
    ContinueStep(before, frames[j - 1], t);
    assert j - 1 > i;
    BurstsCount(c, frames, i, j - 1 - i, t);
  }

  // ---- recovery ----

  /** How many nominal strides are left before Continue. */
  function ToGo(c: Controller): nat {
    match c.lastAction
    case Continue => 0
    case Burst => if c.consecutiveNominalCount <= 5 then 6 - c.consecutiveNominalCount else 1
    case Hold => 7
    case Reduce => 7
  }

  lemma NominalStep(c: Controller, x: Frame, t: Thresholds)
    requires |c.tracker.history| > 0 && Inv(c)
    requires Judge(c.tracker, x, t).state == Nominal && Judge(c.tracker, x, t).dropped <= 5
    ensures ToGo(Step(c, x, t)) == if ToGo(c) == 0 then 0 else ToGo(c) - 1
    ensures Step(c, x, t).tracker.state == Nominal
  {
    hide Judge;
  }

  ghost predicate Steady(c: Controller, frames: seq<Frame>, d: real) {
    forall k :: 0 <= k < |frames| ==> Drift(frames[k]) == d && frames[k].sequenceNum == c.tracker.lastSequence + 1 + k
  }

  /** After n steady frames the newest min(n, W) drifts of the window are d. */
  lemma {:induction false} WindowFills(c: Controller, frames: seq<Frame>, d: real, n: nat, t: Thresholds)
    requires |c.tracker.history| > 0 && n <= |frames| && Steady(c, frames, d)
    ensures var w := Run(c, frames, n, t).tracker;
            w.lastSequence == c.tracker.lastSequence + n
            && forall k :: 0 <= k < |w.history| && k >= |w.history| - n ==> w.history[k] == d
  {
    if n > 0 {
      WindowFills(c, frames, d, n - 1, t);
      hide Judge;
      var w := Run(c, frames, n - 1, t).tracker;
      WindowStep(w, frames[n - 1], d, n, t);
    }
  }

  lemma WindowStep(w: Tracker, x: Frame, d: real, n: nat, t: Thresholds)
    requires |w.history| > 0 && n > 0 && Drift(x) == d
    requires forall k :: 0 <= k < |w.history| && k >= |w.history| - (n - 1) ==> w.history[k] == d
    ensures forall k :: 0 <= k < |w.history| && k >= |w.history| - n ==> Track(w, x, t).history[k] == d
  {
    hide Judge;
  }

  /** From the W-th steady frame on, every verdict is nominal. */
  lemma SteadyIsNominal(c: Controller, frames: seq<Frame>, d: real, n: nat, t: Thresholds)
    requires n < |frames| && Steady(c, frames, d) && 0 < |c.tracker.history| <= n + 1 && t.warning > 0.0 && t.slip > 0.0
    ensures var m := Judge(Run(c, frames, n, t).tracker, frames[n], t); m.state == Nominal && m.dropped <= 5
  {
    WindowFills(c, frames, d, n, t);
    WindowFills(c, frames, d, n + 1, t);
    var w := Run(c, frames, n, t).tracker;
    var h := NextWindow(w.history, w.lastSequence, d);
    assert h == Track(w, frames[n], t).history == Run(c, frames, n + 1, t).tracker.history;
    hide Verdict;
    ConstantIsNominal(h, d, Dropped(w.lastSequence, frames[n].sequenceNum), t);
  }

  lemma {:induction false} CountsDown(c: Controller, frames: seq<Frame>, d: real, k: nat, t: Thresholds)
    requires Inv(c) && Steady(c, frames, d) && 0 < |c.tracker.history| && t.warning > 0.0 && t.slip > 0.0
    requires k > 0 && |c.tracker.history| - 1 + k <= |frames|
    ensures ToGo(Run(c, frames, |c.tracker.history| - 1 + k, t)) <= Max(0, 7 - k)
    ensures Run(c, frames, |c.tracker.history| - 1 + k, t).tracker.state == Nominal
  {
    hide Step, Run, Judge, Steady, Inv;
    var n := |c.tracker.history| - 1 + k - 1;
    if k > 1 { CountsDown(c, frames, d, k - 1, t); }
    RunKeepsInv(c, frames, n, t);
    SteadyIsNominal(c, frames, d, n, t);
    NominalStep(Run(c, frames, n, t), frames[n], t);
    RunNext(c, frames, n + 1, t);
    ToGoBound(Run(c, frames, n, t));
  }

  lemma ToGoBound(c: Controller)
    ensures ToGo(c) <= 7
  {
  }

  /** After W + 6 frames of constant drift with consecutive numbers, from any reachable state:
      back at nominal continuation and the full rate. */
  lemma AlwaysRecovers(c: Controller, frames: seq<Frame>, d: real, t: Thresholds)
    requires Inv(c) && Steady(c, frames, d) && 0 < |c.tracker.history| && t.warning > 0.0 && t.slip > 0.0
    requires |frames| == |c.tracker.history| + 6
    ensures var e := Run(c, frames, |frames|, t); e.lastAction == Continue && e.rate == 100 && e.tracker.state == Nominal
  {
    hide Step, Run, Steady;
    CountsDown(c, frames, d, 7, t);
    RunKeepsInv(c, frames, |frames|, t);
  }

  // ---- the controller ----

  class FlowController {
    const tracker: SyncTracker
    var lastAction: Action
    var consecutiveNominalCount: nat
    var currentRateFactor: int

    ghost predicate Valid()
      reads this, tracker, tracker.driftHistory
    {
      tracker.Valid() && Inv(Model())
    }

    function Model(): Controller
      reads this, tracker, tracker.driftHistory
    {
      Controller(tracker.Model(), lastAction, consecutiveNominalCount, currentRateFactor)
    }

    constructor (historyWindow: nat)
      requires historyWindow > 0
      ensures Valid() && fresh(tracker) && fresh(tracker.driftHistory) && tracker.driftHistory.Length == historyWindow
      ensures lastAction == Continue && currentRateFactor == 100
      ensures tracker.thresholds == Thresholds(0.002, 0.005)
    {
      tracker := new SyncTracker(historyWindow, Thresholds(0.002, 0.005));
      lastAction, consecutiveNominalCount, currentRateFactor := Continue, 0, 100;
    }

    method ProcessStride(x: Frame) returns (m: Metrics, action: Action, rate: int)
      requires Valid()
      modifies this, tracker, tracker.driftHistory
      ensures Valid() && Model() == Step(old(Model()), x, tracker.thresholds)
      ensures m == Judge(old(tracker.Model()), x, tracker.thresholds) && action == lastAction && rate == currentRateFactor
    {
      hide Judge, Track;
      StepKeepsInv(Model(), x, tracker.thresholds);
      m := tracker.EvaluateStride(x);
      var nextNominal: nat;
      action, nextNominal := EvaluateFlowControl(m.state, m.dropped, lastAction, consecutiveNominalCount);
      lastAction := action;
      consecutiveNominalCount := nextNominal;
      if action == Reduce {
        currentRateFactor := Max(80, currentRateFactor - 5);
      } else if action == Burst {
        currentRateFactor := Min(100, currentRateFactor + 5);
      }
      rate := currentRateFactor;
    }

    method EvaluateFlowControl(state: State, dropped: int, last: Action, count: nat) returns (action: Action, nextNominal: nat)
      ensures (action, nextNominal) == Decide(state, dropped, last, count)
    {
      action, nextNominal := Continue, count;
      if state == CriticalDesync || dropped > 5 {
        action, nextNominal := Reduce, 0;
      } else if state == ClockSlip {
        action, nextNominal := Hold, 0;
      } else if state == DriftWarning {
        action, nextNominal := Reduce, 0;
      } else if last == Hold || last == Reduce {
        action, nextNominal := Burst, 0;
      } else if last == Burst {
        if count < 5 {
          action, nextNominal := Burst, count + 1;
        } else {
          action, nextNominal := Continue, 0;
        }
      } else {
        action, nextNominal := Continue, 0;
      }
    }
  }
}
