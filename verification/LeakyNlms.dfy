/** leaky_nlms_tracker.py: Frost's loop with a leak and a step normalised by the signal power. */
module LeakyNlms {
  import opened ComplexVectors
  import opened ConstrainedLms

  function Step(w: Vec, a: Vec, x: Vec, mu0: real, epsilon: real, alpha: real): Vec
    requires Norm2(x) + epsilon != 0.0
  {
    Adapt(w, a, x, alpha, mu0 / (Norm2(x) + epsilon))
  }

  /** The divisor of every step is nonzero; epsilon > 0 is enough. */
  predicate Normalisable(xs: seq<Vec>, epsilon: real) {
    forall i :: 0 <= i < |xs| ==> Norm2(xs[i]) + epsilon != 0.0
  }

  /** The weights after the samples xs. */
  function Track(w: Vec, a: Vec, xs: seq<Vec>, mu0: real, epsilon: real, alpha: real): Vec
    requires Normalisable(xs, epsilon)
  {
    if xs == [] then w
    else Step(Track(w, a, xs[..|xs| - 1], mu0, epsilon, alpha), a, xs[|xs| - 1], mu0, epsilon, alpha)
  }

  /** The body of the loop: the new weights and the output the old ones gave. */
  method AdaptInPlace(weights: array<Complex>, a: Vec, x: Vec, mu0: real, epsilon: real, alpha: real) returns (y: Complex)
    requires weights.Length == 4 && Norm2(x) + epsilon != 0.0
    modifies weights
    ensures View(weights) == Step(old(View(weights)), a, x, mu0, epsilon, alpha)
    ensures y == Dot(old(View(weights)), x)
  {
    hide Dot, Norm2, Plus, Minus, Times, Stretch;
    var w := View(weights);
    y := Dot(w, x);
    var mu := mu0 / (Norm2(x) + epsilon);
    var v := Minus(Stretch(alpha, w), Times(Scale(mu, Conj(y)), x));
    var inner := Dot(a, v);
    Store(weights, Plus(Minus(v, Times(Scale(0.25, inner), a)), Stretch(0.25, a)));
  }

  /** The tracking loop: weights and outPowers are overwritten in place. */
  method TrackInPlace(weights: array<Complex>, a: Vec, xs: seq<Vec>, mu0: real, epsilon: real, alpha: real,
                      outPowers: array<real>)
    requires weights.Length == 4 && outPowers.Length == |xs|
    requires Normalisable(xs, epsilon)
    modifies weights, outPowers
    ensures View(weights) == Track(old(View(weights)), a, xs, mu0, epsilon, alpha)
    ensures forall i :: 0 <= i < |xs| ==>
              outPowers[i] == Power(Dot(Track(old(View(weights)), a, xs[..i], mu0, epsilon, alpha), xs[i]))
  {
    hide Dot, Norm2, Power, Step;
    ghost var w0 := View(weights);
    for n := 0 to |xs|
      invariant View(weights) == Track(w0, a, xs[..n], mu0, epsilon, alpha)
      invariant forall i :: 0 <= i < n ==> outPowers[i] == Power(Dot(Track(w0, a, xs[..i], mu0, epsilon, alpha), xs[i]))
    {
      var y := AdaptInPlace(weights, a, xs[n], mu0, epsilon, alpha);
      outPowers[n] := Power(y);
      assert xs[..n + 1][..n] == xs[..n];
    }
    assert xs[..|xs|] == xs;
  }

  /** The squared length of alpha u - mu g p, where g = p^H u. */
  lemma ShrunkNorm(u: Vec, p: Vec, alpha: real, mu: real)
    ensures var g := Dot(p, u);
      Norm2(Minus(Stretch(alpha, u), Times(Scale(mu, g), p)))
      == alpha * alpha * Norm2(u) - mu * Power(g) * (2.0 * alpha - mu * Norm2(p))
  {
    hide Dot, Norm2, Stretch, Minus, Times;
    var g := Dot(p, u);
    var s, t := Stretch(alpha, u), Times(Scale(mu, g), p);
    NormMinus(s, t);
    assert Norm2(s) == alpha * alpha * Norm2(u) by { NormStretch(alpha, u); }
    assert Norm2(t) == mu * mu * Power(g) * Norm2(p) by {
      NormTimes(Scale(mu, g), p);
      PowerScale(mu, g);
    }
    assert Dot(s, t).re == alpha * mu * Power(g) by {
      DotConj(s, t);
      DotStretch(t, alpha, u);
      DotConj(t, u);
      DotTimes(u, Scale(mu, g), p);
      DotConj(u, p);
      assert Mul(Scale(mu, g), Conj(g)).re == mu * Power(g);
    }
    ShrunkArithmetic(Norm2(u), Norm2(p), Power(g), alpha, mu);
  }

  lemma ShrunkArithmetic(u: real, p: real, g: real, alpha: real, mu: real)
    ensures alpha * alpha * u - 2.0 * (alpha * mu * g) + mu * mu * g * p
         == alpha * alpha * u - mu * g * (2.0 * alpha - mu * p)
  {
  }

  lemma CoordinateSplit(s: Complex, p: Complex, mu: real, g: Complex, h: Complex)
    ensures Sub(s, Mul(Scale(mu, Add(g, h)), p)) == Sub(Sub(s, Mul(Scale(mu, g), p)), Mul(Scale(mu, h), p))
  {
    hide Mul, Scale;
    ScaleAdd(mu, g, h);
    MulCommutes(Scale(mu, Add(g, h)), p); MulCommutes(Scale(mu, g), p); MulCommutes(Scale(mu, h), p);
    MulAdd(p, Scale(mu, g), Scale(mu, h));
  }

  /** The free part after a step is (alpha u - mu g p) - mu h p: a shrinking of the old free
      part, less a push whose size the normalisation bounds. */
  lemma StepSplits(w: Vec, a: Vec, x: Vec, alpha: real, mu: real)
    requires IsSteering(a) && UnitGain(a, w)
    ensures var u, p := Offset(w, a), Project(a, x);
      Offset(Adapt(w, a, x, alpha, mu), a)
      == Minus(Minus(Stretch(alpha, u), Times(Scale(mu, Dot(p, u)), p)), Times(Scale(mu, Scale(0.25, Conj(Dot(a, x)))), p))
  {
    hide Dot, Norm2, Offset, Project, Adapt;
    var u, p := Offset(w, a), Project(a, x);
    var g, h := Dot(p, u), Scale(0.25, Conj(Dot(a, x)));
    OffsetStep(w, a, x, alpha, mu);
    OutputSplits(w, a, x);
    var s := Stretch(alpha, u);
    CoordinateSplit(s.c0, p.c0, mu, g, h); CoordinateSplit(s.c1, p.c1, mu, g, h);
    CoordinateSplit(s.c2, p.c2, mu, g, h); CoordinateSplit(s.c3, p.c3, mu, g, h);
  }

  /** |mu h p|^2 <= (mu0 / 4)^2, because 2 (|a^H x|/2) |p| <= |a^H x|^2/4 + |p|^2 = |x|^2. */
  lemma PushIsSmall(n: real, p: real, d: real, mu: real, mu0: real)
    requires p >= 0.0 && d >= 0.0 && n == p + 0.25 * d
    requires mu >= 0.0 && mu * n <= mu0
    ensures mu * mu * (0.0625 * d) * p <= 0.0625 * mu0 * mu0
  {
    var e := 0.25 * d;
    assert 4.0 * e * p <= n * n by {
      assert n * n - 4.0 * e * p == (p - e) * (p - e);
    }
    assert mu * mu * (4.0 * e * p) <= mu * mu * (n * n) by { Monotone(mu * mu, 4.0 * e * p, n * n); }
    assert (mu * n) * (mu * n) <= mu0 * mu0 by { SquareMonotone(mu * n, mu0); }
    assert mu * mu * (4.0 * e * p) == mu * mu * d * p;
    assert mu * mu * (n * n) == (mu * n) * (mu * n);
  }

  lemma Monotone(k: real, x: real, y: real)
    requires k >= 0.0 && x <= y
    ensures k * x <= k * y
  {
  }

  lemma SquareMonotone(x: real, y: real)
    requires 0.0 <= x <= y
    ensures x * x <= y * y
  {
  }

  lemma NormalizedStep(n: real, epsilon: real, mu0: real)
    requires n >= 0.0 && epsilon > 0.0 && mu0 >= 0.0
    ensures var mu := mu0 / (n + epsilon); mu >= 0.0 && mu * n <= mu0
  {
    var mu := mu0 / (n + epsilon);
    assert mu * (n + epsilon) == mu0;
    assert mu >= 0.0;
    assert mu * n == mu0 - mu * epsilon;
  }

  /** The parameters under which the leak wins: 0 <= alpha < 1 and 0 <= mu0 <= 2 alpha. */
  predicate Leaky(mu0: real, epsilon: real, alpha: real) {
    0.0 <= alpha < 1.0 && epsilon > 0.0 && 0.0 <= mu0 <= 2.0 * alpha
  }

  /** bound is at least the initial size of the free part and at least mu0 / (4 (1 - alpha)). */
  predicate Bounds(bound: real, w: Vec, a: Vec, mu0: real, alpha: real) {
    && bound >= 0.0
    && Norm2(Offset(w, a)) <= bound * bound
    && mu0 <= 4.0 * (1.0 - alpha) * bound
  }

  lemma CombineBounds(k: real, s: real, t: real, d: real, b: real)
    requires 0.0 < k < 1.0 && Convex(k, s, t, d)
    requires s <= k * k * b
    requires t <= (1.0 - k) * (1.0 - k) * b
    ensures d <= b
  {
    var s', t' := k * k * b, (1.0 - k) * (1.0 - k) * b;
    assert (1.0 - k) * s' + k * t' == k * (1.0 - k) * b;
    ConvexMonotone(k, s, t, d, s', t');
    CancelFactor(k, d, b);
  }

  lemma ConvexMonotone(k: real, s: real, t: real, d: real, s': real, t': real)
    requires 0.0 < k < 1.0 && Convex(k, s, t, d) && s <= s' && t <= t'
    ensures Convex(k, s', t', d)
  {
    var m := 1.0 - k;
    assert m * s <= m * s' by { Monotone(m, s, s'); }
    assert k * t <= k * t' by { Monotone(k, t, t'); }
    LinearChain(k * m * d, m * s, k * t, m * s', k * t');
  }

  lemma LinearChain(a: real, b: real, c: real, b': real, c': real)
    requires a <= b + c && b <= b' && c <= c'
    ensures a <= b' + c'
  {
  }

  lemma CancelFactor(k: real, d: real, b: real)
    requires 0.0 < k < 1.0 && k * (1.0 - k) * d <= k * (1.0 - k) * b
    ensures d <= b
  {
    MonotoneStrict(k, 1.0 - k);
    var m := k * (1.0 - k);
    Distribute(m, d, b);
    if d > b { MonotoneStrict(m, d - b); }
  }

  lemma MonotoneStrict(k: real, x: real)
    requires k > 0.0 && x > 0.0
    ensures k * x > 0.0
  {
  }

  /** |alpha u - mu g p|^2 <= (alpha bound)^2 when mu |p|^2 <= 2 alpha. */
  lemma ShrinkIsShrinking(u: real, p: real, g: real, alpha: real, mu: real, bound: real)
    requires g >= 0.0 && mu >= 0.0 && mu * p <= 2.0 * alpha && u <= bound * bound
    ensures alpha * alpha * u - mu * g * (2.0 * alpha - mu * p) <= alpha * alpha * (bound * bound)
  {
    Monotone(alpha * alpha, u, bound * bound);
    assert mu * g >= 0.0;
    Monotone(mu * g, 0.0, 2.0 * alpha - mu * p);
  }

  /** mu0/4 <= (1 - alpha) bound, squared. */
  lemma PushFits(mu0: real, alpha: real, bound: real)
    requires 0.0 <= mu0 <= 4.0 * (1.0 - alpha) * bound
    ensures 0.0625 * mu0 * mu0 <= (1.0 - alpha) * (1.0 - alpha) * (bound * bound)
  {
    var c := (1.0 - alpha) * bound;
    SquareMonotone(0.25 * mu0, c);
    assert c * c == (1.0 - alpha) * (1.0 - alpha) * (bound * bound);
  }

  lemma ShrunkPartFits(u: Vec, p: Vec, mu: real, alpha: real, bound: real)
    requires mu >= 0.0 && mu * Norm2(p) <= 2.0 * alpha && Norm2(u) <= bound * bound
    ensures Norm2(Minus(Stretch(alpha, u), Times(Scale(mu, Dot(p, u)), p))) <= alpha * alpha * (bound * bound)
  {
    hide Dot, Norm2, Power, Minus, Times, Stretch;
    ShrunkNorm(u, p, alpha, mu);
    ShrinkIsShrinking(Norm2(u), Norm2(p), Power(Dot(p, u)), alpha, mu, bound);
  }

  lemma PushedPartFits(n: real, p: Vec, d: Complex, mu: real, mu0: real, alpha: real, bound: real)
    requires n == Norm2(p) + 0.25 * Power(d) && mu >= 0.0 && mu * n <= mu0
    requires 0.0 <= mu0 <= 4.0 * (1.0 - alpha) * bound
    ensures var push := Norm2(Times(Scale(mu, Scale(0.25, Conj(d))), p));
            push <= (1.0 - alpha) * (1.0 - alpha) * (bound * bound) && (mu0 == 0.0 ==> push <= 0.0)
  {
    hide Norm2, Power, Times;
    var h := Scale(0.25, Conj(d));
    assert Norm2(Times(Scale(mu, h), p)) == mu * mu * (0.0625 * Power(d)) * Norm2(p) by {
      NormTimes(Scale(mu, h), p);
      PowerScale(mu, h);
      PowerScale(0.25, Conj(d));
      PowerConj(d);
    }
    PushIsSmall(n, Norm2(p), Power(d), mu, mu0);
    PushFits(mu0, alpha, bound);
  }

  lemma EffectiveStep(x: Vec, a: Vec, mu0: real, epsilon: real)
    requires IsSteering(a) && epsilon > 0.0 && mu0 >= 0.0
    ensures Norm2(x) + epsilon > 0.0
    ensures var mu, p := mu0 / (Norm2(x) + epsilon), Norm2(Project(a, x));
            mu >= 0.0 && mu * p <= mu0 && mu * Norm2(x) <= mu0
  {
    hide Dot, Norm2, Power, Project;
    var n, p := Norm2(x), Norm2(Project(a, x));
    NormalizedStep(n, epsilon, mu0);
    Pythagoras(a, x);
    Monotone(mu0 / (n + epsilon), p, n);
  }

  lemma StepKeepsBound(w: Vec, a: Vec, x: Vec, mu0: real, epsilon: real, alpha: real, bound: real)
    requires IsSteering(a) && UnitGain(a, w) && Leaky(mu0, epsilon, alpha) && Bounds(bound, w, a, mu0, alpha)
    ensures Norm2(x) + epsilon > 0.0
    ensures Bounds(bound, Step(w, a, x, mu0, epsilon, alpha), a, mu0, alpha)
  {
    hide Dot, Norm2, Power, Adapt, Offset, Project, Minus, Times, Stretch, Convex;
    EffectiveStep(x, a, mu0, epsilon);
    var mu := mu0 / (Norm2(x) + epsilon);
    var u, p, d := Offset(w, a), Project(a, x), Dot(a, x);
    var s := Minus(Stretch(alpha, u), Times(Scale(mu, Dot(p, u)), p));
    var t := Times(Scale(mu, Scale(0.25, Conj(d))), p);
    ShrunkPartFits(u, p, mu, alpha, bound);
    Pythagoras(a, x);
    PushedPartFits(Norm2(x), p, d, mu, mu0, alpha, bound);
    StepSplits(w, a, x, alpha, mu);
    var k := if alpha == 0.0 then 0.5 else alpha;
    ConvexNorm(k, s, t);
    CombineBounds(k, Norm2(s), Norm2(t), Norm2(Minus(s, t)), if alpha == 0.0 then 0.0 else bound * bound);
    assert bound * bound >= 0.0;
  }

  lemma PowerConj(z: Complex)
    ensures Power(Conj(z)) == Power(z)
  {
  }

  /** For runs of any length and any samples: the look direction keeps unit gain, and the free
      part of the weights never outgrows the larger of its initial size and
      mu0 / (4 (1 - alpha)) (any `bound` that is at least both). */
  lemma {:induction false} LeakyWeightsStayBounded(w: Vec, a: Vec, xs: seq<Vec>, mu0: real, epsilon: real, alpha: real, bound: real)
    requires IsSteering(a) && UnitGain(a, w) && Leaky(mu0, epsilon, alpha) && Bounds(bound, w, a, mu0, alpha)
    ensures Normalisable(xs, epsilon)
    ensures var final := Track(w, a, xs, mu0, epsilon, alpha);
      && UnitGain(a, final)
      && Norm2(Offset(final, a)) <= bound * bound
      && Norm2(final) <= bound * bound + 0.25
  {
    hide Dot, Norm2, Adapt, Offset;
    if xs == [] {
      OffsetIsOrthogonal(w, a);
    } else {
      var prefix, x := xs[..|xs| - 1], xs[|xs| - 1];
      LeakyWeightsStayBounded(w, a, prefix, mu0, epsilon, alpha, bound);
      var before := Track(w, a, prefix, mu0, epsilon, alpha);
      StepKeepsBound(before, a, x, mu0, epsilon, alpha, bound);
      StepRestoresUnitGain(before, a, x, alpha, mu0 / (Norm2(x) + epsilon));
      OffsetIsOrthogonal(Step(before, a, x, mu0, epsilon, alpha), a);
    }
  }

  // ---- what adaptation does to the output ----

  /** The factor by which a step shrinks the output's distance from its floor. */
  function Shrinkage(a: Vec, x: Vec, mu0: real, epsilon: real, alpha: real): real
    requires Norm2(x) + epsilon != 0.0
  {
    alpha - mu0 / (Norm2(x) + epsilon) * Norm2(Project(a, x))
  }

  /** Adapting to a snapshot mixes its output with that of the quiescent weights a / 4. */
  lemma StepMixesOutput(w: Vec, a: Vec, x: Vec, mu0: real, epsilon: real, alpha: real)
    requires IsSteering(a) && UnitGain(a, w) && Norm2(x) + epsilon != 0.0
    ensures Dot(Step(w, a, x, mu0, epsilon, alpha), x)
         == Add(Scale(alpha - mu0 / (Norm2(x) + epsilon) * Norm2(Project(a, x)), Dot(w, x)), Scale(0.25 * (1.0 - alpha), Dot(a, x)))
  {
    hide Dot, Norm2, Project, Adapt, Scale, Add;
    OutputAfterStep(w, a, x, alpha, mu0 / (Norm2(x) + epsilon));
  }

  /** What is left of the output however often the same snapshot comes. */
  function Floor(a: Vec, x: Vec, mu0: real, epsilon: real, alpha: real): Complex
    requires Norm2(x) + epsilon != 0.0 && Shrinkage(a, x, mu0, epsilon, alpha) != 1.0
  {
    Scale(0.25 * (1.0 - alpha) / (1.0 - Shrinkage(a, x, mu0, epsilon, alpha)), Dot(a, x))
  }

  lemma ShrinkageIsSmall(a: Vec, x: Vec, mu0: real, epsilon: real, alpha: real)
    requires IsSteering(a) && Leaky(mu0, epsilon, alpha)
    ensures Norm2(x) + epsilon > 0.0 && -alpha <= Shrinkage(a, x, mu0, epsilon, alpha) <= alpha
  {
    hide Norm2, Project;
    EffectiveStep(x, a, mu0, epsilon);
    var mu, p := mu0 / (Norm2(x) + epsilon), Norm2(Project(a, x));
    Monotone(mu, 0.0, p);
  }

  lemma MixIsShrink(k: real, alpha: real, c: real, y: Complex, d: Complex)
    requires k != 1.0 && c == 0.25 * (1.0 - alpha) / (1.0 - k)
    ensures Sub(Add(Scale(k, y), Scale(0.25 * (1.0 - alpha), d)), Scale(c, d)) == Scale(k, Sub(y, Scale(c, d)))
  {
    assert c * (1.0 - k) == 0.25 * (1.0 - alpha);
    MixCoordinate(k, c, y.re, d.re); MixCoordinate(k, c, y.im, d.im);
  }

  lemma MixCoordinate(k: real, c: real, y: real, d: real)
    ensures k * y + c * (1.0 - k) * d - c * d == k * (y - c * d)
  {
    var z := c * d;
    assert c * (1.0 - k) * d == (1.0 - k) * z by { Regroup(1.0 - k, c, d); }
    Distribute(z, 1.0, k);
    Distribute(k, y, z);
  }

  /** A step takes the output straight towards its floor. */
  lemma StepApproachesFloor(w: Vec, a: Vec, x: Vec, mu0: real, epsilon: real, alpha: real)
    requires IsSteering(a) && UnitGain(a, w) && Norm2(x) + epsilon != 0.0 && Shrinkage(a, x, mu0, epsilon, alpha) != 1.0
    ensures var k, f := Shrinkage(a, x, mu0, epsilon, alpha), Floor(a, x, mu0, epsilon, alpha);
      Sub(Dot(Step(w, a, x, mu0, epsilon, alpha), x), f) == Scale(k, Sub(Dot(w, x), f))
  {
    hide Dot, Norm2, Project, Step, Scale, Add, Sub;
    StepMixesOutput(w, a, x, mu0, epsilon, alpha);
    var k := Shrinkage(a, x, mu0, epsilon, alpha);
    var c := 0.25 * (1.0 - alpha) / (1.0 - k);
    assert k == alpha - mu0 / (Norm2(x) + epsilon) * Norm2(Project(a, x));
    assert Floor(a, x, mu0, epsilon, alpha) == Scale(c, Dot(a, x));
    hide Shrinkage, Floor;
    MixIsShrink(k, alpha, c, Dot(w, x), Dot(a, x));
  }

  function ToThe(k: real, n: nat): real { if n == 0 then 1.0 else k * ToThe(k, n - 1) }

  /** The same snapshot n times. */
  function Repeated(x: Vec, n: nat): (xs: seq<Vec>)
    ensures |xs| == n && forall i :: 0 <= i < n ==> xs[i] == x
  {
    seq(n, _ => x)
  }

  lemma ScaleTwice(k: real, l: real, m: real, z: Complex)
    requires m == k * l
    ensures Scale(k, Scale(l, z)) == Scale(m, z) && Scale(1.0, z) == z
  {
    Regroup(k, l, z.re); Regroup(k, l, z.im);
  }

  /** However often a snapshot is repeated: its output closes in on the floor geometrically, with a
      ratio of at most alpha in size. */
  lemma {:induction false} RepeatedSnapshotReachesFloor(w: Vec, a: Vec, x: Vec, mu0: real, epsilon: real, alpha: real, n: nat)
    requires IsSteering(a) && UnitGain(a, w) && Leaky(mu0, epsilon, alpha)
    ensures Normalisable(Repeated(x, n), epsilon) && Norm2(x) + epsilon > 0.0
    ensures -alpha <= Shrinkage(a, x, mu0, epsilon, alpha) <= alpha
    ensures UnitGain(a, Track(w, a, Repeated(x, n), mu0, epsilon, alpha))
    ensures var k, f := Shrinkage(a, x, mu0, epsilon, alpha), Floor(a, x, mu0, epsilon, alpha);
      Sub(Dot(Track(w, a, Repeated(x, n), mu0, epsilon, alpha), x), f) == Scale(ToThe(k, n), Sub(Dot(w, x), f))
  {
    hide Dot, Norm2, Project, Step, Adapt, Scale, Sub, Floor, Shrinkage;
    ShrinkageIsSmall(a, x, mu0, epsilon, alpha);
    var k, f := Shrinkage(a, x, mu0, epsilon, alpha), Floor(a, x, mu0, epsilon, alpha);
    ScaleTwice(k, 0.0, 0.0, Sub(Dot(w, x), f));
    if n > 0 {
      RepeatedSnapshotReachesFloor(w, a, x, mu0, epsilon, alpha, n - 1);
      var before := Track(w, a, Repeated(x, n - 1), mu0, epsilon, alpha);
      assert Repeated(x, n)[..n - 1] == Repeated(x, n - 1);
      assert Track(w, a, Repeated(x, n), mu0, epsilon, alpha) == Step(before, a, x, mu0, epsilon, alpha);
      StepKeepsGain(before, a, x, mu0, epsilon, alpha);
      StepApproachesFloor(before, a, x, mu0, epsilon, alpha);
      ScaleTwice(k, ToThe(k, n - 1), ToThe(k, n), Sub(Dot(w, x), f));
    } else {
      assert Repeated(x, 0) == [];
    }
  }

  lemma StepKeepsGain(w: Vec, a: Vec, x: Vec, mu0: real, epsilon: real, alpha: real)
    requires IsSteering(a) && Norm2(x) + epsilon != 0.0
    ensures UnitGain(a, Step(w, a, x, mu0, epsilon, alpha))
  {
    hide Dot, Norm2, Adapt;
    StepRestoresUnitGain(w, a, x, alpha, mu0 / (Norm2(x) + epsilon));
  }

  /** A step does not raise the output power exactly when the power of the floor is at most that of
      the output and the shrinkage times that of the distance between them. */
  lemma OutputPowerFalls(w: Vec, a: Vec, x: Vec, mu0: real, epsilon: real, alpha: real)
    requires IsSteering(a) && UnitGain(a, w) && Leaky(mu0, epsilon, alpha)
    ensures Norm2(x) + epsilon > 0.0 && Shrinkage(a, x, mu0, epsilon, alpha) < 1.0
    ensures var k, f, y := Shrinkage(a, x, mu0, epsilon, alpha), Floor(a, x, mu0, epsilon, alpha), Dot(w, x);
      Power(Dot(Step(w, a, x, mu0, epsilon, alpha), x)) <= Power(y) <==> Power(f) <= Power(y) + k * Power(Sub(y, f))
  {
    hide Dot, Norm2, Project, Step, Floor, Shrinkage, Power, Scale, Sub;
    ShrinkageIsSmall(a, x, mu0, epsilon, alpha);
    StepApproachesFloor(w, a, x, mu0, epsilon, alpha);
    var k, f, y := Shrinkage(a, x, mu0, epsilon, alpha), Floor(a, x, mu0, epsilon, alpha), Dot(w, x);
    PowerTowards(k, f, y, Dot(Step(w, a, x, mu0, epsilon, alpha), x));
  }

  lemma PowerTowards(k: real, f: Complex, y: Complex, y': Complex)
    requires k < 1.0 && Sub(y', f) == Scale(k, Sub(y, f))
    ensures Power(y') <= Power(y) <==> Power(f) <= Power(y) + k * Power(Sub(y, f))
  {
    hide Power, Square, Gap;
    var g, h := Gap(k, f.re, y.re), Gap(k, f.im, y.im);
    TowardsCoordinate(k, f.re, y.re, y'.re); TowardsCoordinate(k, f.im, y.im, y'.im);
    PowerParts(y); PowerParts(y'); PowerParts(f); PowerParts(Sub(y, f));
    GapParts(k, f.re, y.re); GapParts(k, f.im, y.im);
    Distribute(k, Square(y.re - f.re), Square(y.im - f.im));
    Distribute(1.0 - k, g, h);
    SameSign(1.0 - k, g + h);
  }

  lemma SameSign(m: real, z: real)
    requires m > 0.0
    ensures m * z >= 0.0 <==> z >= 0.0
  {
    if z >= 0.0 { Monotone(m, 0.0, z); } else { MonotoneStrict(m, -z); }
  }

  lemma GapParts(k: real, f: real, y: real)
    ensures Gap(k, f, y) == Square(y) + k * Square(y - f) - Square(f)
  {
  }

  lemma PowerParts(z: Complex)
    ensures Power(z) == Square(z.re) + Square(z.im)
  {
  }

  function Gap(k: real, f: real, y: real): real { Square(y) + k * Square(y - f) - Square(f) }

  lemma TowardsCoordinate(k: real, f: real, y: real, y': real)
    requires y' - f == k * (y - f)
    ensures Square(y) - Square(y') == (1.0 - k) * Gap(k, f, y)
  {
    var e := y - f;
    assert y' == f + k * e && y == f + e;
    assert Square(y) == Square(f) + 2.0 * f * e + Square(e);
    assert Square(y') == Square(f) + 2.0 * f * (k * e) + Square(k * e);
    assert Square(k * e) == k * k * Square(e);
    assert (1.0 - k) * Gap(k, f, y) == (1.0 - k) * (2.0 * f * e + (1.0 + k) * Square(e));
  }
}
