/** double_buffered_weight_handover.py: active and shadow weight registers, adapted side by
    side and swapped once the shadow has settled. */
module WeightHandover {
  import opened ComplexVectors
  import opened ConstrainedLms
  import FrostLms

  /** One call of process_stride: both targets and both sample blocks. */
  datatype Stride = Stride(targetActive: Vec, targetShadow: Vec, xActive: seq<Vec>, xShadow: seq<Vec>)

  datatype Registers = Registers(active: Vec, shadow: Vec, counter: int)

  /** The leakage average divides by the number of active samples, which also index the
      shadow block. */
  predicate Acceptable(s: Stride) { 1 <= |s.xActive| <= |s.xShadow| }

  function ShadowSamples(s: Stride): seq<Vec>
    requires Acceptable(s)
  {
    s.xShadow[..|s.xActive|]
  }

  function TotalPower(w: Vec, xs: seq<Vec>): real {
    if xs == [] then 0.0 else TotalPower(w, xs[..|xs| - 1]) + Power(Dot(w, xs[|xs| - 1]))
  }

  function Leakage(w: Vec, xs: seq<Vec>): real
    requires xs != []
  {
    TotalPower(w, xs) / |xs| as real
  }

  function Adapted(r: Registers, s: Stride, mu: real): Registers
    requires Acceptable(s)
  {
    Registers(FrostLms.Track(r.active, s.targetActive, s.xActive, mu),
              FrostLms.Track(r.shadow, s.targetShadow, ShadowSamples(s), mu),
              r.counter + 1)
  }

  predicate Switches(r: Registers, s: Stride, mu: real, threshold: real)
    requires Acceptable(s)
  {
    var n := Adapted(r, s, mu);
    n.counter >= 10 && Leakage(n.shadow, ShadowSamples(s)) < threshold
  }

  function After(r: Registers, s: Stride, mu: real, threshold: real): Registers
    requires Acceptable(s)
  {
    var n := Adapted(r, s, mu);
    if Switches(r, s, mu, threshold)
    then Registers(n.shadow, Stretch(0.25, s.targetShadow), 0)
    else n
  }

  class DoubleBufferedWeightHandover {
    const mu: real
    const settlingThreshold: real
    var activeWeights: array<Complex>
    var shadowWeights: array<Complex>
    var settlingCounter: int

    predicate Valid()
      reads this
    {
      activeWeights.Length == 4 && shadowWeights.Length == 4 && activeWeights != shadowWeights
    }

    function View(): Registers
      requires Valid()
      reads this, activeWeights, shadowWeights
    {
      Registers(ConstrainedLms.View(activeWeights), ConstrainedLms.View(shadowWeights), settlingCounter)
    }

    constructor (mu: real, settlingThreshold: real)
      ensures Valid() && fresh(activeWeights) && fresh(shadowWeights)
      ensures this.mu == mu && this.settlingThreshold == settlingThreshold
      ensures var quarter := C(0.25, 0.0);
        View() == Registers(Vec(quarter, quarter, quarter, quarter), Vec(quarter, quarter, quarter, quarter), 0)
    {
      this.mu := mu;
      this.settlingThreshold := settlingThreshold;
      activeWeights := new Complex[4](_ => C(0.25, 0.0));
      shadowWeights := new Complex[4](_ => C(0.25, 0.0));
      settlingCounter := 0;
    }

    /** Both registers are adapted in place, then swapped if the shadow has settled. */
    method ProcessStride(s: Stride) returns (switched: bool)
      requires Valid() && Acceptable(s)
      modifies this, activeWeights, shadowWeights
      ensures Valid()
      ensures fresh(activeWeights) || activeWeights == old(activeWeights)
      ensures fresh(shadowWeights) || shadowWeights == old(shadowWeights)
      ensures switched == Switches(old(View()), s, mu, settlingThreshold)
      ensures View() == After(old(View()), s, mu, settlingThreshold)
    {
      hide Dot, Power, Stretch, FrostLms.Step;
      ghost var before := View();
      var n := |s.xActive|;
      ghost var xs := ShadowSamples(s);
      AdaptAll(activeWeights, s.targetActive, s.xActive, n);
      assert s.xActive[..n] == s.xActive;
      AdaptAll(shadowWeights, s.targetShadow, s.xShadow, n);
      ghost var adapted := Adapted(before, s, mu);
      var shadow := ConstrainedLms.View(shadowWeights);
      assert shadow == adapted.shadow;
      var sum := 0.0;
      for i := 0 to n
        invariant sum == TotalPower(shadow, s.xShadow[..i])
      {
        assert s.xShadow[..i + 1][..i] == s.xShadow[..i];
        sum := sum + Power(Dot(shadow, s.xShadow[i]));
      }
      assert sum / n as real == Leakage(adapted.shadow, xs);
      var nextCounter := settlingCounter + 1;
      switched := nextCounter >= 10 && sum / n as real < settlingThreshold;
      settlingCounter := nextCounter;
      if switched {
        settlingCounter := 0;
        var active := new Complex[4];
        ConstrainedLms.Store(active, shadow);
        var standby := new Complex[4];
        ConstrainedLms.Store(standby, Stretch(0.25, s.targetShadow));
        activeWeights, shadowWeights := active, standby;
      }
    }

    method AdaptAll(weights: array<Complex>, a: Vec, xs: seq<Vec>, n: nat)
      requires weights.Length == 4 && n <= |xs|
      modifies weights
      ensures ConstrainedLms.View(weights) == FrostLms.Track(old(ConstrainedLms.View(weights)), a, xs[..n], mu)
    {
      hide FrostLms.Step;
      ghost var w0 := ConstrainedLms.View(weights);
      for i := 0 to n
        invariant ConstrainedLms.View(weights) == FrostLms.Track(w0, a, xs[..i], mu)
      {
        var _ := FrostLms.AdaptInPlace(weights, a, xs[i], mu);
        assert xs[..i + 1][..i] == xs[..i];
      }
    }
  }

  // ---- runs ----

  predicate Proper(strides: seq<Stride>) {
    forall i :: 0 <= i < |strides| ==>
      Acceptable(strides[i]) && IsSteering(strides[i].targetActive) && IsSteering(strides[i].targetShadow)
  }

  function Run(r: Registers, strides: seq<Stride>, mu: real, threshold: real): Registers
    requires Proper(strides)
  {
    if strides == [] then r
    else After(Run(r, strides[..|strides| - 1], mu, threshold), strides[|strides| - 1], mu, threshold)
  }

  /** Whether stride i of the run executed a swap. */
  predicate SwitchedAt(r: Registers, strides: seq<Stride>, mu: real, threshold: real, i: nat)
    requires Proper(strides) && i < |strides|
  {
    Switches(Run(r, strides[..i], mu, threshold), strides[i], mu, threshold)
  }

  lemma StandbyServesItsTarget(a: Vec)
    requires IsSteering(a)
    ensures UnitGain(a, Stretch(0.25, a))
  {
    hide Dot, Norm2, Stretch;
    DotStretch(a, 0.25, a);
    DotSelf(a);
  }

  /** After every stride of every run the active register has unit gain toward the target it
      now serves (the standby target, if this stride swapped) and the shadow register toward
      the standby target: a swap opens no leak. */
  lemma RegistersServeTheirTargets(r: Registers, strides: seq<Stride>, mu: real, threshold: real)
    requires Proper(strides) && strides != []
    ensures var last := strides[|strides| - 1];
            var now := Run(r, strides, mu, threshold);
            var served := if SwitchedAt(r, strides, mu, threshold, |strides| - 1) then last.targetShadow else last.targetActive;
            (UnitGain(served, now.active) && UnitGain(last.targetShadow, now.shadow))
  {
    hide Dot, Norm2, Stretch, Leakage;
    var last := strides[|strides| - 1];
    var before := Run(r, strides[..|strides| - 1], mu, threshold);
    FrostLms.TrackReachesUnitGain(before.active, last.targetActive, last.xActive, mu);
    FrostLms.TrackReachesUnitGain(before.shadow, last.targetShadow, ShadowSamples(last), mu);
    StandbyServesItsTarget(last.targetShadow);
  }

  /** After a swap at stride i the counter has had at most the strides since to grow. */
  lemma {:induction false} CounterCountsStrides(r: Registers, strides: seq<Stride>, mu: real, threshold: real, i: nat)
    requires Proper(strides) && i < |strides| && SwitchedAt(r, strides, mu, threshold, i)
    ensures Run(r, strides, mu, threshold).counter <= |strides| - 1 - i
  {
    hide FrostLms.Track, Leakage;
    if i < |strides| - 1 {
      var prefix := strides[..|strides| - 1];
      assert prefix[..i] == strides[..i];
      CounterCountsStrides(r, prefix, mu, threshold, i);
    }
  }

  /** Two swaps are at least ten strides apart. */
  lemma SwapsAreTenStridesApart(r: Registers, strides: seq<Stride>, mu: real, threshold: real, i: nat, j: nat)
    requires Proper(strides) && i < j < |strides|
    requires SwitchedAt(r, strides, mu, threshold, i) && SwitchedAt(r, strides, mu, threshold, j)
    ensures j - i >= 10
  {
    assert strides[..j][..i] == strides[..i];
    CounterCountsStrides(r, strides[..j], mu, threshold, i);
  }

  /** The counter is the number of strides since the last swap, or since the start. */
  lemma {:induction false} CounterIsSinceTheSwap(r: Registers, strides: seq<Stride>, mu: real, threshold: real)
    requires Proper(strides) && r.counter == 0
    ensures var c, n := Run(r, strides, mu, threshold).counter, |strides|;
      && 0 <= c <= n
      && (forall k: nat :: n - c <= k < n ==> !SwitchedAt(r, strides, mu, threshold, k))
      && (c < n ==> SwitchedAt(r, strides, mu, threshold, n - c - 1))
  {
    hide FrostLms.Track, Leakage;
    var n := |strides|;
    if n > 0 {
      var front := strides[..n - 1];
      CounterIsSinceTheSwap(r, front, mu, threshold);
      forall k: nat | k < n - 1 ensures SwitchedAt(r, front, mu, threshold, k) == SwitchedAt(r, strides, mu, threshold, k) {
        assert front[..k] == strides[..k];
      }
    }
  }

  /** A stride swaps exactly when it is at least the tenth since the start, none of the nine before
      it swapped, and the shadow register, adapted to it, passes on average less than the threshold
      of its samples' power. */
  lemma SettledRegisterSwaps(r: Registers, strides: seq<Stride>, mu: real, threshold: real, i: nat)
    requires Proper(strides) && r.counter == 0 && i < |strides|
    ensures var s := strides[i];
      var shadow := FrostLms.Track(Run(r, strides[..i], mu, threshold).shadow, s.targetShadow, ShadowSamples(s), mu);
      SwitchedAt(r, strides, mu, threshold, i)
      <==> i >= 9 && (forall k: nat :: i - 9 <= k < i ==> !SwitchedAt(r, strides, mu, threshold, k))
           && TotalPower(shadow, ShadowSamples(s)) < threshold * |s.xActive| as real
  {
    hide FrostLms.Track, TotalPower, Switches, Run;
    var front := strides[..i];
    CounterIsSinceTheSwap(r, front, mu, threshold);
    forall k: nat | k < i ensures SwitchedAt(r, front, mu, threshold, k) == SwitchedAt(r, strides, mu, threshold, k) {
      assert front[..k] == strides[..k];
    }
    SwitchesExactly(Run(r, front, mu, threshold), strides[i], mu, threshold);
  }

  lemma SwitchesExactly(r: Registers, s: Stride, mu: real, threshold: real)
    requires Acceptable(s)
    ensures var shadow := FrostLms.Track(r.shadow, s.targetShadow, ShadowSamples(s), mu);
      Switches(r, s, mu, threshold) <==> r.counter >= 9 && TotalPower(shadow, ShadowSamples(s)) < threshold * |s.xActive| as real
  {
    hide FrostLms.Track, TotalPower;
    var shadow := FrostLms.Track(r.shadow, s.targetShadow, ShadowSamples(s), mu);
    AverageBelow(TotalPower(shadow, ShadowSamples(s)), |s.xActive| as real, threshold);
  }

  lemma AverageBelow(p: real, n: real, threshold: real)
    requires n > 0.0
    ensures p / n < threshold <==> p < threshold * n
  {
    var a := p / n;
    assert a * n == p;
    assert threshold * n - p == (threshold - a) * n;
    if threshold > a { assert (threshold - a) * n > 0.0; } else { assert (a - threshold) * n >= 0.0; }
  }

  /** A swap promotes the shadow register as just adapted and stages a quarter of the standby target,
      the shortest weights with unit gain toward it. */
  lemma SwapPromotesTheShadow(r: Registers, strides: seq<Stride>, mu: real, threshold: real, w: Vec)
    requires Proper(strides) && strides != [] && SwitchedAt(r, strides, mu, threshold, |strides| - 1)
    ensures var n, s := |strides| - 1, strides[|strides| - 1];
      var now := Run(r, strides, mu, threshold);
      && now.active == FrostLms.Track(Run(r, strides[..n], mu, threshold).shadow, s.targetShadow, ShadowSamples(s), mu)
      && now.counter == 0 && UnitGain(s.targetShadow, now.shadow)
      && (UnitGain(s.targetShadow, w) && w != now.shadow ==> Norm2(now.shadow) < Norm2(w))
  {
    hide FrostLms.Track, Leakage, Dot, Norm2, Stretch, Minus;
    var a := strides[|strides| - 1].targetShadow;
    StandbyServesItsTarget(a);
    if UnitGain(a, w) { QuiescentIsShortest(a, w); }
  }

  lemma QuiescentIsShortest(a: Vec, w: Vec)
    requires IsSteering(a) && UnitGain(a, w)
    ensures w != Stretch(0.25, a) ==> Norm2(Stretch(0.25, a)) < Norm2(w)
  {
    hide Dot, Norm2, Stretch, Minus;
    OffsetIsOrthogonal(w, a);
    NormStretch(0.25, a);
    if w != Stretch(0.25, a) { DifferentIsApart(w, Stretch(0.25, a)); }
  }

  lemma DifferentIsApart(u: Vec, v: Vec)
    requires u != v
    ensures Norm2(Minus(u, v)) > 0.0
  {
    hide Power;
    PowerOfDifference(u.c0, v.c0); PowerOfDifference(u.c1, v.c1); PowerOfDifference(u.c2, v.c2); PowerOfDifference(u.c3, v.c3);
  }

  lemma PowerOfDifference(x: Complex, y: Complex)
    ensures Power(Sub(x, y)) > 0.0 <==> x != y
  {
    SquarePositive(x.re - y.re);
    SquarePositive(x.im - y.im);
  }

  // ---- between swaps ----

  function ActiveSamples(strides: seq<Stride>): seq<Vec> {
    if strides == [] then [] else ActiveSamples(strides[..|strides| - 1]) + strides[|strides| - 1].xActive
  }

  function StandbySamples(strides: seq<Stride>): seq<Vec>
    requires forall i :: 0 <= i < |strides| ==> Acceptable(strides[i])
  {
    if strides == [] then [] else StandbySamples(strides[..|strides| - 1]) + ShadowSamples(strides[|strides| - 1])
  }

  lemma {:induction false} TracksCompose(w: Vec, a: Vec, xs: seq<Vec>, ys: seq<Vec>, mu: real)
    ensures FrostLms.Track(w, a, xs + ys, mu) == FrostLms.Track(FrostLms.Track(w, a, xs, mu), a, ys, mu)
    decreases |ys|
  {
    hide FrostLms.Step;
    if ys == [] {
      assert xs + ys == xs;
    } else {
      var k := |ys| - 1;
      TracksCompose(w, a, xs, ys[..k], mu);
      assert (xs + ys)[..|xs + ys| - 1] == xs + ys[..k];
    }
  }

  /** While nothing swaps and the targets stay, the registers are two independent trackers, each run
      over the samples of its own channel, the shadow's cut to the length of the active's. */
  lemma {:induction false} TwoTrackers(r: Registers, strides: seq<Stride>, mu: real, threshold: real, a: Vec, b: Vec)
    requires Proper(strides)
    requires forall i :: 0 <= i < |strides| ==> strides[i].targetActive == a && strides[i].targetShadow == b
    requires forall i :: 0 <= i < |strides| ==> !SwitchedAt(r, strides, mu, threshold, i)
    ensures Run(r, strides, mu, threshold).active == FrostLms.Track(r.active, a, ActiveSamples(strides), mu)
    ensures Run(r, strides, mu, threshold).shadow == FrostLms.Track(r.shadow, b, StandbySamples(strides), mu)
  {
    hide FrostLms.Track, Leakage;
    if strides == [] {
      NoSamples(r.active, a, mu); NoSamples(r.shadow, b, mu);
    } else {
      var n := |strides| - 1;
      var front := strides[..n];
      forall i | 0 <= i < n ensures !SwitchedAt(r, front, mu, threshold, i) {
        assert front[..i] == strides[..i];
        assert !SwitchedAt(r, strides, mu, threshold, i);
      }
      TwoTrackers(r, front, mu, threshold, a, b);
      assert !SwitchedAt(r, strides, mu, threshold, n);
      TracksCompose(r.active, a, ActiveSamples(front), strides[n].xActive, mu);
      TracksCompose(r.shadow, b, StandbySamples(front), ShadowSamples(strides[n]), mu);
    }
  }

  lemma NoSamples(w: Vec, a: Vec, mu: real)
    ensures FrostLms.Track(w, a, [], mu) == w
  {
  }
}
