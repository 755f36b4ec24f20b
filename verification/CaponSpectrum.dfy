/** capon_aoa_mapper.py: what the inverted covariance is as an operator, and the
    minimum-variance sweep over the steering grid. */
module CaponSpectrum {
  import opened ComplexVectors
  import opened RowReduction
  import opened CaponInversion

  /** R v for R = x x^H + alpha I. */
  function ApplyCovariance(x: Vec, alpha: real, v: Vec): Vec {
    Plus(Times(Dot(x, v), x), Stretch(alpha, v))
  }

  /** 1 / (alpha (alpha + |x|^2)). */
  function Gain(x: Vec, alpha: real): real
    requires alpha > 0.0
  {
    Inv(alpha) * Inv(alpha + Norm2(x))
  }

  lemma GainFacts(x: Vec, alpha: real)
    requires alpha > 0.0
    ensures Gain(x, alpha) > 0.0 && Inv(alpha) > 0.0 && Inv(alpha + Norm2(x)) > 0.0
    ensures Gain(x, alpha) * (alpha + Norm2(x)) == Inv(alpha)
    ensures Gain(x, alpha) * alpha == Inv(alpha + Norm2(x))
    ensures Gain(x, alpha) * Norm2(x) == Inv(alpha) - Inv(alpha + Norm2(x))
  {
    hide Norm2, Inv;
    var a, d := Inv(alpha), alpha + Norm2(x);
    var u := Inv(d);
    InvPositive(alpha); InvPositive(d);
    ProductPositive(a, u);
    UnitTimes(d * u, a); UnitTimes(alpha * a, u);
    Regroup(a, u, d); Regroup(a, u, alpha);
    Distribute(a * u, alpha, Norm2(x));
  }

  /** (v - x (x^H v) / (alpha + |x|^2)) / alpha. */
  function ApplyInverse(x: Vec, alpha: real, v: Vec): Vec
    requires alpha > 0.0
  {
    Minus(Stretch(Inv(alpha), v), Times(Scale(Gain(x, alpha), Dot(x, v)), x))
  }

  /** Entry r of R v and of inv v, from the matrix entries. */
  function RowOf(m: (nat, nat) -> Complex, v: Vec, r: nat): Complex
    requires r < N
  {
    Add(Add(Add(Mul(m(r, 0), v.c0), Mul(m(r, 1), v.c1)), Mul(m(r, 2), v.c2)), Mul(m(r, 3), v.c3))
  }

  // ---- the matrices as operators ----

  function CovarianceMatrix(x: Vec, alpha: real): (nat, nat) -> Complex {
    (r: nat, c: nat) => if r < N && c < N then Covariance(x, alpha, r, c) else ZERO
  }

  function InverseMatrix(x: Vec, alpha: real): (nat, nat) -> Complex
    requires alpha > 0.0
  {
    (r: nat, c: nat) => if r < N && c < N then Inverse(x, alpha, N, r, c) else ZERO
  }

  lemma PrefixIsNorm(x: Vec)
    ensures Prefix(x, N) == Norm2(x)
  {
    hide Power;
    assert Prefix(x, 1) == Power(x.c0);
    assert Prefix(x, 2) == Power(x.c0) + Power(x.c1);
    assert Prefix(x, 3) == Power(x.c0) + Power(x.c1) + Power(x.c2);
  }

  /** (d + s x_r x_c^*) v_c. */
  lemma EntryTimes(d: real, s: real, x: Vec, r: nat, c: nat, v: Complex)
    requires r < N && c < N
    ensures Mul(Entry(d, s, Outer(x, r, c)), v) == Add(Scale(d, v), Mul(Scale(s, At(x, r)), Mul(Conj(At(x, c)), v)))
  {
    hide Mul;
    var p, q := At(x, r), Conj(At(x, c));
    MulCommutes(Entry(d, s, Outer(x, r, c)), v);
    MulAdd(v, C(d, 0.0), Scale(s, Mul(p, q)));
    MulReal(v, d);
    MulCommutes(v, Scale(s, Mul(p, q)));
    MulScale(s, p, q);
    MulAssoc(Scale(s, p), q, v);
  }

  lemma SumOfFour(p: Complex, d0: Complex, d1: Complex, d2: Complex, d3: Complex, q0: Complex, q1: Complex, q2: Complex, q3: Complex)
    ensures Add(Add(Add(Add(d0, Mul(p, q0)), Add(d1, Mul(p, q1))), Add(d2, Mul(p, q2))), Add(d3, Mul(p, q3)))
         == Add(Add(Add(Add(d0, d1), d2), d3), Mul(p, Add(Add(Add(q0, q1), q2), q3)))
  {
    hide Mul;
    MulAdd(p, Add(Add(q0, q1), q2), q3); MulAdd(p, Add(q0, q1), q2); MulAdd(p, q0, q1);
  }

  /** Row r of k I + s x x^H applied to v. */
  lemma RowTimes(m: (nat, nat) -> Complex, k: real, s: real, x: Vec, v: Vec, r: nat)
    requires r < N
    requires forall c: nat :: c < N ==> m(r, c) == Entry(if r == c then k else 0.0, s, Outer(x, r, c))
    ensures RowOf(m, v, r) == Add(Scale(k, At(v, r)), Mul(Scale(s, At(x, r)), Dot(x, v)))
  {
    hide Mul, Entry, Outer, Conj;
    var d0, d1, d2, d3 := if r == 0 then k else 0.0, if r == 1 then k else 0.0, if r == 2 then k else 0.0, if r == 3 then k else 0.0;
    EntryTimes(d0, s, x, r, 0, v.c0); EntryTimes(d1, s, x, r, 1, v.c1);
    EntryTimes(d2, s, x, r, 2, v.c2); EntryTimes(d3, s, x, r, 3, v.c3);
    var p := Scale(s, At(x, r));
    SumOfFour(p, Scale(d0, v.c0), Scale(d1, v.c1), Scale(d2, v.c2), Scale(d3, v.c3),
      Mul(Conj(x.c0), v.c0), Mul(Conj(x.c1), v.c1), Mul(Conj(x.c2), v.c2), Mul(Conj(x.c3), v.c3));
    OnlyOne(k, v, r);
  }

  lemma OnlyOne(k: real, v: Vec, r: nat)
    requires r < N
    ensures Add(Add(Add(Scale(if r == 0 then k else 0.0, v.c0), Scale(if r == 1 then k else 0.0, v.c1)),
      Scale(if r == 2 then k else 0.0, v.c2)), Scale(if r == 3 then k else 0.0, v.c3)) == Scale(k, At(v, r))
  {
    ScaleNothing(v.c0); ScaleNothing(v.c1); ScaleNothing(v.c2); ScaleNothing(v.c3);
  }

  /** The covariance array, applied to v, is R v. */
  lemma CovarianceApplies(x: Vec, alpha: real, v: Vec, r: nat)
    requires r < N
    ensures RowOf(CovarianceMatrix(x, alpha), v, r)
         == At(ApplyCovariance(x, alpha, v), r)
  {
    hide Mul, Outer, Dot, Entry, RowOf;
    forall c: nat | c < N ensures Covariance(x, alpha, r, c) == Entry(if r == c then alpha else 0.0, 1.0, Outer(x, r, c)) {
      EntryUnit(if r == c then alpha else 0.0, Outer(x, r, c));
    }
    RowTimes(CovarianceMatrix(x, alpha), alpha, 1.0, x, v, r);
    MulCommutes(At(x, r), Dot(x, v));
  }

  /** The array the reduction leaves, applied to v, is (v - x (x^H v) / (alpha + |x|^2)) / alpha. */
  lemma InverseApplies(x: Vec, alpha: real, v: Vec, r: nat)
    requires r < N && alpha > 0.0
    ensures RowOf(InverseMatrix(x, alpha), v, r)
         == At(ApplyInverse(x, alpha, v), r)
  {
    hide Mul, Outer, Dot, Entry, RowOf, Inv, Norm2, Prefix;
    PrefixIsNorm(x);
    var k, s := Inv(alpha), Gain(x, alpha);
    assert Load(x, alpha, N) == alpha + Norm2(x);
    forall c: nat | c < N ensures Inverse(x, alpha, N, r, c) == Entry(if r == c then k else 0.0, -s, Outer(x, r, c)) {
      assert InverseDiagonal(k, N, r, c) == if r == c then k else 0.0;
      assert InverseShare(k, Inv(alpha + Norm2(x)), N, r, c) == -s;
    }
    RowTimes(InverseMatrix(x, alpha), k, -s, x, v, r);
    NegatedTerm(k, At(v, r), s, At(x, r), Dot(x, v));
  }

  lemma NegatedTerm(k: real, v: Complex, s: real, p: Complex, q: Complex)
    ensures Add(Scale(k, v), Mul(Scale(-s, p), q)) == Sub(Scale(k, v), Mul(Scale(s, q), p))
  {
    hide Mul;
    MulScale(-s, p, q); MulScale(s, q, p); MulCommutes(p, q);
    var m := Mul(p, q);
    MulCommutes(Scale(s, q), p);
    NegativeProduct(s, m.re); NegativeProduct(s, m.im);
  }

  // ---- each undoes the other ----

  /** x^H (k x) and the like: the component along x is scaled by alpha + |x|^2. */
  lemma ComponentOfCovariance(x: Vec, alpha: real, v: Vec)
    ensures Dot(x, ApplyCovariance(x, alpha, v)) == Scale(alpha + Norm2(x), Dot(x, v))
  {
    hide Dot, Norm2, Mul;
    var w := Dot(x, v);
    DotPlus(x, Times(w, x), Stretch(alpha, v));
    DotTimes(x, w, x); DotStretch(x, alpha, v); DotSelf(x);
    MulReal(w, Norm2(x));
    Distribute(w.re, alpha, Norm2(x)); Distribute(w.im, alpha, Norm2(x));
  }

  lemma StretchPlus(k: real, u: Vec, v: Vec)
    ensures Stretch(k, Plus(u, v)) == Plus(Stretch(k, u), Stretch(k, v))
  {
    ScaleAdd(k, u.c0, v.c0); ScaleAdd(k, u.c1, v.c1); ScaleAdd(k, u.c2, v.c2); ScaleAdd(k, u.c3, v.c3);
  }

  lemma StretchTimes(k: real, z: Complex, v: Vec)
    ensures Stretch(k, Times(z, v)) == Times(Scale(k, z), v)
  {
    hide Mul, Scale;
    MulScale(k, z, v.c0); MulScale(k, z, v.c1); MulScale(k, z, v.c2); MulScale(k, z, v.c3);
  }

  lemma StretchTwice(k: real, l: real, v: Vec)
    requires k * l == 1.0
    ensures Stretch(k, Stretch(l, v)) == v
  {
    UndoScale(k, l, v.c0); UndoScale(k, l, v.c1); UndoScale(k, l, v.c2); UndoScale(k, l, v.c3);
  }

  lemma UndoScale(k: real, l: real, z: Complex)
    requires k * l == 1.0
    ensures Scale(k, Scale(l, z)) == z
  {
    var m := k * l;
    Regroup(k, l, z.re); Regroup(k, l, z.im); UnitTimes(m, z.re); UnitTimes(m, z.im);
  }

  lemma PlusMinus(u: Vec, v: Vec)
    ensures Minus(Plus(u, v), u) == v && Plus(u, Minus(v, u)) == v
  {
  }

  /** The computed inverse undoes the loaded covariance. */
  lemma InverseUndoesCovariance(x: Vec, alpha: real, v: Vec)
    requires alpha > 0.0
    ensures ApplyInverse(x, alpha, ApplyCovariance(x, alpha, v)) == v
  {
    hide Dot, Norm2, Mul, Times, Plus, Minus, Stretch, Scale, Inv, Gain;
    var a, w := Inv(alpha), Dot(x, v);
    GainFacts(x, alpha);
    ComponentOfCovariance(x, alpha, v);
    ScaleTwice(Gain(x, alpha), alpha + Norm2(x), a, w);
    StretchPlus(a, Times(w, x), Stretch(alpha, v));
    StretchTimes(a, w, x);
    StretchTwice(a, alpha, v);
    PlusMinus(Times(Scale(a, w), x), v);
  }

  lemma ComponentOfInverse(x: Vec, alpha: real, v: Vec)
    requires alpha > 0.0
    ensures Dot(x, ApplyInverse(x, alpha, v)) == Scale(Inv(alpha + Norm2(x)), Dot(x, v))
  {
    hide Dot, Norm2, Mul, Times, Plus, Minus, Stretch, Inv, Gain;
    var a, n, g, w := Inv(alpha), Norm2(x), Gain(x, alpha), Dot(x, v);
    var s, k := Scale(g, w), a - Inv(alpha + n);
    GainFacts(x, alpha);
    DotMinus(x, Stretch(a, v), Times(s, x));
    DotStretch(x, a, v); DotTimes(x, s, x); DotSelf(x);
    MulReal(s, n);
    ScaleTwice(n, g, k, w);
    ScaleSum(a, k, w);
  }

  lemma ScaleSum(s: real, t: real, z: Complex)
    ensures Sub(Scale(s, z), Scale(t, z)) == Scale(s - t, z)
  {
    Distribute(z.re, s, t); Distribute(z.im, s, t);
  }

  /** And the other way round. */
  lemma CovarianceUndoesInverse(x: Vec, alpha: real, v: Vec)
    requires alpha > 0.0
    ensures ApplyCovariance(x, alpha, ApplyInverse(x, alpha, v)) == v
  {
    hide Dot, Norm2, Mul, Times, Plus, Minus, Stretch, Scale, Inv, Gain;
    var a, u, g, w := Inv(alpha), Inv(alpha + Norm2(x)), Gain(x, alpha), Dot(x, v);
    var s := Scale(g, w);
    GainFacts(x, alpha);
    ComponentOfInverse(x, alpha, v);
    StretchMinus(alpha, Stretch(a, v), Times(s, x));
    StretchTwice(alpha, a, v);
    StretchTimes(alpha, s, x);
    ScaleTwice(alpha, g, u, w);
    PlusMinus(Times(Scale(u, w), x), v);
  }

  lemma StretchMinus(k: real, u: Vec, v: Vec)
    ensures Stretch(k, Minus(u, v)) == Minus(Stretch(k, u), Stretch(k, v))
  {
    ScaleSub(k, u.c0, v.c0); ScaleSub(k, u.c1, v.c1); ScaleSub(k, u.c2, v.c2); ScaleSub(k, u.c3, v.c3);
  }

  lemma ScaleSub(k: real, a: Complex, b: Complex)
    ensures Scale(k, Sub(a, b)) == Sub(Scale(k, a), Scale(k, b))
  {
    Distribute(k, a.re, b.re); Distribute(k, a.im, b.im);
  }

  // ---- the spectrum ----

  /** a^H R^-1 a. */
  function Response(x: Vec, alpha: real, a: Vec): Complex
    requires alpha > 0.0
  {
    Dot(a, ApplyInverse(x, alpha, a))
  }

  /** (|a|^2 - |x^H a|^2 / (alpha + |x|^2)) / alpha. */
  function Residual(x: Vec, alpha: real, a: Vec): real
    requires alpha > 0.0
  {
    Inv(alpha) * Norm2(a) - Gain(x, alpha) * Power(Dot(x, a))
  }

  /** The response is real. */
  lemma ResponseIsReal(x: Vec, alpha: real, a: Vec)
    requires alpha > 0.0
    ensures Response(x, alpha, a) == C(Residual(x, alpha, a), 0.0)
  {
    hide Dot, Norm2, Mul, Times, Minus, Stretch, Inv, Power, Gain;
    var k, g, w := Inv(alpha), Gain(x, alpha), Dot(x, a);
    var s := Scale(g, w);
    DotMinus(a, Stretch(k, a), Times(s, x));
    DotStretch(a, k, a); DotTimes(a, s, x); DotSelf(a); DotConj(a, x);
    MulScale(g, w, Conj(w)); MulConj(w);
  }

  /** |x|^2 |a|^2 - |x^H a|^2 >= 0, from the square norm of |x|^2 a - (x^H a) x. */
  lemma CauchySchwarz(x: Vec, a: Vec)
    ensures Power(Dot(x, a)) <= Norm2(x) * Norm2(a)
  {
    hide Dot, Norm2, Mul, Times, Minus, Stretch, Power;
    var n, m, w := Norm2(x), Norm2(a), Dot(x, a);
    var p, q := Stretch(n, a), Times(w, x);
    NormMinus(p, q);
    NormStretch(n, a); NormTimes(w, x);
    assert Dot(p, q).re == n * Power(w) by {
      DotTimes(p, w, x); DotConj(p, x); DotStretch(x, n, a);
      assert Dot(p, x) == Scale(n, Conj(w));
      MulScale(n, w, Conj(w)); MulConj(w);
    }
    var pw := Power(w);
    assert n * n * m - 2.0 * (n * pw) + pw * n >= 0.0;
    NonNegativeFactor(n, n * m - pw);
    if n == 0.0 {
      NullVector(x, a);
    }
  }

  lemma NonNegativeFactor(n: real, y: real)
    requires n > 0.0 ==> n * y >= 0.0
    ensures n > 0.0 ==> y >= 0.0
  {
    if n > 0.0 && y < 0.0 { ProductPositive(n, -y); }
  }

  lemma NullVector(x: Vec, a: Vec)
    requires Norm2(x) == 0.0
    ensures Power(Dot(x, a)) == 0.0
  {
    hide Mul, Power;
    PowerPositive(x.c0); PowerPositive(x.c1); PowerPositive(x.c2); PowerPositive(x.c3);
    MulZero(a.c0); MulZero(a.c1); MulZero(a.c2); MulZero(a.c3);
    MulCommutes(a.c0, ZERO); MulCommutes(a.c1, ZERO); MulCommutes(a.c2, ZERO); MulCommutes(a.c3, ZERO);
    PowerOfZero();
  }

  /** The response is at least |a|^2 / (alpha + |x|^2). */
  lemma ResidualBound(x: Vec, alpha: real, a: Vec)
    requires alpha > 0.0
    ensures Residual(x, alpha, a) >= Inv(alpha + Norm2(x)) * Norm2(a) >= 0.0
  {
    hide Dot, Norm2, Inv, Power, Gain;
    CauchySchwarz(x, a);
    GainFacts(x, alpha);
    var k, n, m, p := Inv(alpha), Norm2(x), Norm2(a), Power(Dot(x, a));
    var u, g := Inv(alpha + n), Gain(x, alpha);
    ProductNonNegative(u, m);
    ProductNonNegative(g, n * m - p);
    Distribute(g, n * m, p);
    Regroup(g, n, m);
    Distribute(m, k, u);
  }

  const FLOOR := 0.000000000001

  function Publish(power: real): real
    requires power >= 0.0
  {
    1.0 / (power + FLOOR)
  }

  /** The published spectrum of one angle. */
  function Spectrum(x: Vec, alpha: real, a: Vec): real
    requires alpha > 0.0
  {
    ResidualBound(x, alpha, a);
    Publish(Residual(x, alpha, a))
  }

  /** For steering vectors of one length, the sweep ranks angles exactly by |x^H a|^2. */
  lemma RanksByMatch(x: Vec, alpha: real, a: Vec, b: Vec)
    requires alpha > 0.0 && Norm2(a) == Norm2(b)
    ensures Spectrum(x, alpha, a) >= Spectrum(x, alpha, b) <==> Power(Dot(x, a)) >= Power(Dot(x, b))
  {
    hide Residual, Publish, Norm2, Power, Dot;
    ResidualBound(x, alpha, a); ResidualBound(x, alpha, b);
    PublishOrder(Residual(x, alpha, a), Residual(x, alpha, b));
    ResidualOrder(x, alpha, a, b);
  }

  lemma ResidualOrder(x: Vec, alpha: real, a: Vec, b: Vec)
    requires alpha > 0.0 && Norm2(a) == Norm2(b)
    ensures Residual(x, alpha, a) <= Residual(x, alpha, b) <==> Power(Dot(x, a)) >= Power(Dot(x, b))
  {
    hide Dot, Norm2, Inv, Power, Gain;
    GainFacts(x, alpha);
    OrderScaled(Gain(x, alpha), Power(Dot(x, a)), Power(Dot(x, b)));
    assert Product(Inv(alpha), Norm2(a)) == Product(Inv(alpha), Norm2(b));
  }

  lemma PublishOrder(p: real, q: real)
    requires p >= 0.0 && q >= 0.0
    ensures Publish(p) >= Publish(q) <==> p <= q
  {
    ReciprocalOrder(p + FLOOR, q + FLOOR);
  }

  lemma ReciprocalOrder(s: real, t: real)
    requires s > 0.0 && t > 0.0
    ensures 1.0 / s >= 1.0 / t <==> s <= t
  {
    var u, v := Inv(s), Inv(t);
    InvPositive(s); InvPositive(t);
    ProductPositive(u, v);
    assert (t - s) * (u * v) == u - v by {
      UnitTimes(s * u, v); UnitTimes(t * v, u);
      Distribute(u * v, t, s);
    }
    OrderScaled(u * v, t, s);
  }

  lemma OrderScaled(k: real, s: real, t: real)
    requires k > 0.0
    ensures k * s >= k * t <==> s >= t
  {
    Distribute(k, s, t);
    if s > t { ProductPositive(k, s - t); } else if s < t { ProductPositive(k, t - s); }
  }

  // ---- what "minimum variance" promises ----

  /** w^H R w. */
  function Variance(x: Vec, alpha: real, w: Vec): real {
    Power(Dot(x, w)) + alpha * Norm2(w)
  }

  lemma VarianceMinus(x: Vec, alpha: real, u: Vec, v: Vec)
    ensures Variance(x, alpha, Minus(u, v))
         == Variance(x, alpha, u) - 2.0 * Dot(u, ApplyCovariance(x, alpha, v)).re + Variance(x, alpha, v)
  {
    hide Dot, Norm2, Mul, Times, Minus, Stretch, Power;
    var p, q := Dot(x, u), Dot(x, v);
    DotMinus(x, u, v); PowerSub(p, q); NormMinus(u, v);
    DotPlus(u, Times(q, x), Stretch(alpha, v)); DotTimes(u, q, x); DotStretch(u, alpha, v);
    DotConj(u, x); MulCommutes(q, Conj(p));
    var m, n, d := Norm2(u), Norm2(v), Dot(u, v).re;
    Distribute(alpha, m - 2.0 * d, n); Distribute(alpha, m, 2.0 * d);
  }

  lemma VarianceIsQuadratic(x: Vec, alpha: real, v: Vec)
    ensures Variance(x, alpha, v) == Dot(v, ApplyCovariance(x, alpha, v)).re
  {
    hide Dot, Norm2, Mul, Times, Stretch, Power;
    var q := Dot(x, v);
    DotPlus(v, Times(q, x), Stretch(alpha, v)); DotTimes(v, q, x); DotStretch(v, alpha, v);
    DotConj(v, x); DotSelf(v); MulConj(q);
  }

  lemma CovarianceStretch(x: Vec, alpha: real, k: real, v: Vec)
    ensures ApplyCovariance(x, alpha, Stretch(k, v)) == Stretch(k, ApplyCovariance(x, alpha, v))
  {
    hide Dot, Mul, Times, Scale, Plus, Stretch;
    var w := Dot(x, v);
    DotStretch(x, k, v);
    StretchTimes(k, w, x);
    StretchPlus(k, Times(w, x), Stretch(alpha, v));
    StretchSwap(alpha, k, v);
  }

  lemma StretchSwap(k: real, l: real, v: Vec)
    ensures Stretch(k, Stretch(l, v)) == Stretch(l, Stretch(k, v))
  {
    ScaleSwap(k, l, v.c0); ScaleSwap(k, l, v.c1); ScaleSwap(k, l, v.c2); ScaleSwap(k, l, v.c3);
  }

  lemma ScaleSwap(k: real, l: real, z: Complex)
    ensures Scale(k, Scale(l, z)) == Scale(l, Scale(k, z))
  {
    Regroup(k, l, z.re); Regroup(k, l, z.im);
  }

  function BestBeam(x: Vec, alpha: real, a: Vec): Vec
    requires alpha > 0.0 && Residual(x, alpha, a) > 0.0
  {
    Stretch(Inv(Residual(x, alpha, a)), ApplyInverse(x, alpha, a))
  }

  /** No beam that passes the direction a undistorted has less output variance than the
      reciprocal of the response the sweep computes, and R^-1 a, rescaled, attains it. */
  lemma MinimumVariance(x: Vec, alpha: real, a: Vec, w: Vec)
    requires alpha > 0.0 && Dot(a, w) == ONE
    ensures Residual(x, alpha, a) > 0.0
    ensures Dot(a, BestBeam(x, alpha, a)) == ONE
    ensures Variance(x, alpha, BestBeam(x, alpha, a)) == Inv(Residual(x, alpha, a)) <= Variance(x, alpha, w)
  {
    hide Dot, Norm2, Mul, Minus, Stretch, Power, ApplyCovariance, ApplyInverse, Residual, Inv;
    PassedHasResponse(x, alpha, a, w);
    var rho, g := Residual(x, alpha, a), ApplyInverse(x, alpha, a);
    var t := Inv(rho);
    var best := Stretch(t, g);
    ResponseIsReal(x, alpha, a);
    DotStretch(a, t, g);
    assert Dot(a, best) == ONE;
    CovarianceUndoesInverse(x, alpha, a);
    CovarianceStretch(x, alpha, t, g);
    assert Variance(x, alpha, best) == t by {
      VarianceIsQuadratic(x, alpha, best);
      DotStretch(best, t, a); DotConj(best, a);
    }
    VarianceMinus(x, alpha, w, best);
    DotStretch(w, t, a); DotConj(w, a);
    VarianceNonNegative(x, alpha, Minus(w, best));
  }

  lemma PowerOfOne()
    ensures Power(ONE) == 1.0
  {
  }

  lemma PassedIsNotNull(a: Vec, w: Vec)
    requires Dot(a, w) == ONE
    ensures Norm2(a) > 0.0
  {
    hide Dot, Norm2, Power;
    PowerOfOne();
    if Norm2(a) == 0.0 { NullVector(a, w); }
  }

  /** A direction that some beam passes has a positive response. */
  lemma PassedHasResponse(x: Vec, alpha: real, a: Vec, w: Vec)
    requires alpha > 0.0 && Dot(a, w) == ONE
    ensures Residual(x, alpha, a) > 0.0
  {
    hide Dot, Norm2, Power, Residual, Inv;
    PassedIsNotNull(a, w);
    ResidualBound(x, alpha, a);
    InvPositive(alpha + Norm2(x));
    ProductPositive(Inv(alpha + Norm2(x)), Norm2(a));
  }

  lemma VarianceNonNegative(x: Vec, alpha: real, w: Vec)
    requires alpha > 0.0
    ensures Variance(x, alpha, w) >= 0.0
  {
    hide Dot, Norm2, Power;
    ProductNonNegative(alpha, Norm2(w));
  }

  /** The published value is v / (1 + 1e-12 v), where v is the least variance of any beam that passes
      the direction a undistorted; no such beam, no published response but the floor's. */
  lemma SpectrumIsLeastVariance(x: Vec, alpha: real, a: Vec, w: Vec)
    requires alpha > 0.0 && Dot(a, w) == ONE
    ensures Residual(x, alpha, a) > 0.0 && Dot(a, BestBeam(x, alpha, a)) == ONE
    ensures var v := Variance(x, alpha, BestBeam(x, alpha, a));
      v <= Variance(x, alpha, w) && Spectrum(x, alpha, a) * (1.0 + 0.000000000001 * v) == v
  {
    MinimumVariance(x, alpha, a, w);
    hide Dot, BestBeam, Variance, Residual, Inv;
    PublishedVariance(Residual(x, alpha, a), Variance(x, alpha, BestBeam(x, alpha, a)));
  }

  lemma PublishedVariance(power: real, v: real)
    requires power > 0.0 && v == Inv(power)
    ensures Publish(power) * (1.0 + 0.000000000001 * v) == v
  {
    assert v * power == 1.0;
    assert Publish(power) * (power + FLOOR) == 1.0;
    FlooredReciprocal(Publish(power), power, v, FLOOR);
  }

  lemma FlooredReciprocal(p: real, power: real, v: real, floor: real)
    requires v * power == 1.0 && p * (power + floor) == 1.0
    ensures p * (1.0 + floor * v) == v
  {
    Distribute(p, power, floor);
    Distribute(v, p * power, p * floor);
    Regroup(v, p, power); Regroup(v, p, floor);
    Distribute(p, 1.0, floor * v);
    assert v * (p * power) == p;
  }

  // ---- the sweep of one bin ----

  /** The modulus of a complex number that is known to be real. */
  function Modulus(z: Complex): (m: real)
    requires z.im == 0.0
    ensures m >= 0.0 && m * m == Power(z)
  {
    if z.re < 0.0 then -z.re else z.re
  }

  function Steering(steer: array2<Complex>, k: nat): Vec
    requires k < steer.Length0 && steer.Length1 == N
    reads steer
  {
    Vec(steer[k, 0], steer[k, 1], steer[k, 2], steer[k, 3])
  }

  /** The body of the sweep for one angle. */
  method Evaluate(x: Vec, alpha: real, steer: array2<Complex>, k: nat, inv: array2<Complex>) returns (value: real)
    requires Square4(inv) && k < steer.Length0 && steer.Length1 == N && alpha > 0.0
    requires forall r, c :: 0 <= r < N && 0 <= c < N ==> inv[r, c] == Inverse(x, alpha, N, r, c)
    ensures value == Spectrum(x, alpha, Steering(steer, k))
  {
    hide Inverse, Mul, Residual, ApplyInverse, Publish;
    ghost var m, a := InverseMatrix(x, alpha), Steering(steer, k);
    var power := ZERO;
    for i := 0 to N
      invariant power == DotSoFar(a, ApplyInverse(x, alpha, a), i)
    {
      var aH := Conj(steer[k, i]);
      var innerSum := ZERO;
      for j := 0 to N
        invariant innerSum == RowSoFar(m, a, i, j)
      {
        innerSum := Add(innerSum, Mul(inv[i, j], steer[k, j]));
      }
      RowSoFarIsRow(m, a, i);
      InverseApplies(x, alpha, a, i);
      power := Add(power, Mul(aH, innerSum));
    }
    DotSoFarIsDot(a, ApplyInverse(x, alpha, a));
    ResponseIsReal(x, alpha, a);
    ResidualBound(x, alpha, a);
    value := Publish(Modulus(power));
  }

  method Sweep(x: Vec, alpha: real, steer: array2<Complex>, inv: array2<Complex>, spectra: array<real>)
    requires Square4(inv) && steer.Length1 == N && spectra.Length == steer.Length0 && alpha > 0.0
    requires forall r, c :: 0 <= r < N && 0 <= c < N ==> inv[r, c] == Inverse(x, alpha, N, r, c)
    modifies spectra
    ensures forall k :: 0 <= k < spectra.Length ==> spectra[k] == Spectrum(x, alpha, Steering(steer, k))
  {
    hide Inverse, Spectrum;
    for k := 0 to steer.Length0
      invariant forall l :: 0 <= l < k ==> spectra[l] == Spectrum(x, alpha, Steering(steer, l))
    {
      spectra[k] := Evaluate(x, alpha, steer, k, inv);
    }
  }

  function RowSoFar(m: (nat, nat) -> Complex, v: Vec, r: nat, k: nat): Complex
    requires r < N && k <= N
  {
    if k == 0 then ZERO else Add(RowSoFar(m, v, r, k - 1), Mul(m(r, k - 1), At(v, k - 1)))
  }

  lemma RowSoFarIsRow(m: (nat, nat) -> Complex, v: Vec, r: nat)
    requires r < N
    ensures RowSoFar(m, v, r, N) == RowOf(m, v, r)
  {
    hide Mul;
    assert RowSoFar(m, v, r, 1) == Mul(m(r, 0), v.c0);
    assert RowSoFar(m, v, r, 2) == Add(Mul(m(r, 0), v.c0), Mul(m(r, 1), v.c1));
    assert RowSoFar(m, v, r, 3) == Add(Add(Mul(m(r, 0), v.c0), Mul(m(r, 1), v.c1)), Mul(m(r, 2), v.c2));
  }

  function DotSoFar(u: Vec, v: Vec, k: nat): Complex
    requires k <= N
  {
    if k == 0 then ZERO else Add(DotSoFar(u, v, k - 1), Mul(Conj(At(u, k - 1)), At(v, k - 1)))
  }

  lemma DotSoFarIsDot(u: Vec, v: Vec)
    ensures DotSoFar(u, v, N) == Dot(u, v)
  {
    hide Mul;
    assert DotSoFar(u, v, 1) == Mul(Conj(u.c0), v.c0);
    assert DotSoFar(u, v, 2) == Add(Mul(Conj(u.c0), v.c0), Mul(Conj(u.c1), v.c1));
    assert DotSoFar(u, v, 3) == Add(Add(Mul(Conj(u.c0), v.c0), Mul(Conj(u.c1), v.c1)), Mul(Conj(u.c2), v.c2));
  }

  const DIAGONAL_LOAD := 0.001

  /** One flagged bin, from snapshot to spectrum: the two guards of the source are idle. */
  method MapBin(x: Vec, steer: array2<Complex>, cov: array2<Complex>, temp: array2<Complex>, inv: array2<Complex>, spectra: array<real>)
    requires Square4(cov) && Square4(temp) && Square4(inv) && temp != inv && cov != temp && cov != inv
    requires steer != cov && steer != temp && steer != inv
    requires steer.Length1 == N && spectra.Length == steer.Length0
    modifies cov, temp, inv, spectra
    ensures forall k :: 0 <= k < spectra.Length ==>
              spectra[k] == Spectrum(x, DIAGONAL_LOAD, Steering(steer, k))
  {
    hide Spectrum, Covariance, Inverse;
    FormCovariance(x, DIAGONAL_LOAD, cov);
    Invert(x, DIAGONAL_LOAD, cov, temp, inv);
    Sweep(x, DIAGONAL_LOAD, steer, inv, spectra);
  }
}
