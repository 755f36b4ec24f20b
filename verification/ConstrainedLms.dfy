/** The linearly constrained adaptation step shared by adaptive_null_tracker.py,
    leaky_nlms_tracker.py and double_buffered_weight_handover.py. */
module ConstrainedLms {
  import opened ComplexVectors

  /** v = alpha w - mu y* x, then w = P v + a/4 with P v = v - (a^H v) a / 4. */
  function Adapt(w: Vec, a: Vec, x: Vec, alpha: real, mu: real): Vec {
    var v := Minus(Stretch(alpha, w), Times(Scale(mu, Conj(Dot(w, x))), x));
    Plus(Minus(v, Times(Scale(0.25, Dot(a, v)), a)), Stretch(0.25, a))
  }

  /** The four weights of a register that the trackers overwrite in place. */
  function View(weights: array<Complex>): Vec
    requires weights.Length == 4
    reads weights
  {
    Vec(weights[0], weights[1], weights[2], weights[3])
  }

  method Store(weights: array<Complex>, w: Vec)
    requires weights.Length == 4
    modifies weights
    ensures View(weights) == w
  {
    weights[0] := w.c0;
    weights[1] := w.c1;
    weights[2] := w.c2;
    weights[3] := w.c3;
  }

  /** A steering vector of unit-modulus elements has |a|^2 = 4: the 0.25 above is 1/|a|^2. */
  predicate IsSteering(a: Vec) { Norm2(a) == 4.0 }

  /** a^H w = 1. */
  predicate UnitGain(a: Vec, w: Vec) { Dot(a, w) == ONE }

  /** The part of w that the constraint leaves free. */
  function Offset(w: Vec, a: Vec): Vec { Minus(w, Stretch(0.25, a)) }

  /** P x. */
  function Project(a: Vec, x: Vec): Vec { Minus(x, Times(Scale(0.25, Dot(a, x)), a)) }

  /** The vector v before the projection. */
  function Unprojected(w: Vec, x: Vec, alpha: real, mu: real): Vec {
    Minus(Stretch(alpha, w), Times(Scale(mu, Conj(Dot(w, x))), x))
  }

  lemma GainAfterStep(w: Vec, a: Vec, x: Vec, alpha: real, mu: real)
    ensures var g := Dot(a, Unprojected(w, x, alpha, mu));
      Dot(a, Adapt(w, a, x, alpha, mu)) == Add(Scale(1.0 - 0.25 * Norm2(a), g), C(0.25 * Norm2(a), 0.0))
  {
    var v := Unprojected(w, x, alpha, mu);
    var g := Dot(a, v);
    DotPlus(a, Minus(v, Times(Scale(0.25, g), a)), Stretch(0.25, a));
    DotMinus(a, v, Times(Scale(0.25, g), a));
    DotTimes(a, Scale(0.25, g), a);
    DotStretch(a, 0.25, a);
    DotSelf(a);
    GainArithmetic(g, Norm2(a));
  }

  lemma GainArithmetic(g: Complex, n: real)
    ensures Add(Sub(g, Mul(Scale(0.25, g), C(n, 0.0))), Scale(0.25, C(n, 0.0)))
         == Add(Scale(1.0 - 0.25 * n, g), C(0.25 * n, 0.0))
  {
    GainCoordinate(g.re, n); GainCoordinate(g.im, n);
  }

  lemma GainCoordinate(g: real, n: real)
    ensures 0.25 * g * n == g - (1.0 - 0.25 * n) * g
  {
  }

  /** One step restores the unit gain from any weights, exactly when the target is a steering
      vector or the gain was already 1 before the projection. */
  lemma StepRestoresUnitGain(w: Vec, a: Vec, x: Vec, alpha: real, mu: real)
    ensures UnitGain(a, Adapt(w, a, x, alpha, mu))
       <==> IsSteering(a) || Dot(a, Unprojected(w, x, alpha, mu)) == ONE
  {
    hide Dot, Norm2, Adapt, Unprojected;
    GainAfterStep(w, a, x, alpha, mu);
    GainFixpoint(Dot(a, Unprojected(w, x, alpha, mu)), Norm2(a));
  }

  lemma GainFixpoint(g: Complex, n: real)
    ensures Add(Scale(1.0 - 0.25 * n, g), C(0.25 * n, 0.0)) == ONE <==> n == 4.0 || g == ONE
  {
    var k := 1.0 - 0.25 * n;
    assert k * (g.re - 1.0) == k * g.re + 0.25 * n - 1.0;
    if k != 0.0 && k * (g.re - 1.0) == 0.0 && k * g.im == 0.0 {
      ZeroProduct(k, g.re - 1.0);
      ZeroProduct(k, g.im);
    }
  }

  lemma ZeroProduct(k: real, x: real)
    requires k != 0.0 && k * x == 0.0
    ensures x == 0.0
  {
  }

  lemma OffsetIsOrthogonal(w: Vec, a: Vec)
    requires IsSteering(a) && UnitGain(a, w)
    ensures Dot(a, Offset(w, a)) == ZERO
    ensures Norm2(w) == Norm2(Offset(w, a)) + 0.25
  {
    hide Dot, Norm2, Stretch, Minus;
    var f := Stretch(0.25, a);
    assert Dot(a, Minus(w, f)) == ZERO by {
      DotMinus(a, w, f);
      DotStretch(a, 0.25, a);
      DotSelf(a);
    }
    assert Dot(w, f).re == 0.25 by {
      DotStretch(w, 0.25, a);
      DotConj(w, a);
    }
    assert Norm2(f) == 0.25 by {
      NormStretch(0.25, a);
    }
    NormMinus(w, f);
  }

  lemma CoordinateStep(w: Complex, a: Complex, x: Complex, alpha: real, m: Complex, d: Complex)
    ensures var v := Sub(Scale(alpha, w), Mul(m, x));
            var inner := Sub(C(alpha, 0.0), Mul(m, d));
            (Sub(Add(Sub(v, Mul(Scale(0.25, inner), a)), Scale(0.25, a)), Scale(0.25, a))
         == Sub(Scale(alpha, Sub(w, Scale(0.25, a))), Mul(m, Sub(x, Mul(Scale(0.25, d), a)))))
  {
    var md := Mul(m, d);
    MulScale(0.25, md, a);
    MulSub(m, x, Mul(Scale(0.25, d), a));
    MulScale(0.25, d, a);
    MulScale(0.25, m, Mul(d, a));
    MulAssoc(m, d, a);
  }

  /** The free part evolves on its own: u' = alpha u - mu y* P x. */
  lemma OffsetStep(w: Vec, a: Vec, x: Vec, alpha: real, mu: real)
    requires UnitGain(a, w)
    ensures Offset(Adapt(w, a, x, alpha, mu), a)
         == Minus(Stretch(alpha, Offset(w, a)), Times(Scale(mu, Conj(Dot(w, x))), Project(a, x)))
  {
    var m, d := Scale(mu, Conj(Dot(w, x))), Dot(a, x);
    var v := Unprojected(w, x, alpha, mu);
    assert Dot(a, v) == Sub(C(alpha, 0.0), Mul(m, d)) by {
      DotMinus(a, Stretch(alpha, w), Times(m, x));
      DotStretch(a, alpha, w);
      DotTimes(a, m, x);
    }
    CoordinateStep(w.c0, a.c0, x.c0, alpha, m, d);
    CoordinateStep(w.c1, a.c1, x.c1, alpha, m, d);
    CoordinateStep(w.c2, a.c2, x.c2, alpha, m, d);
    CoordinateStep(w.c3, a.c3, x.c3, alpha, m, d);
  }

  /** |x|^2 = |P x|^2 + |a^H x|^2 / 4, and P x is orthogonal to a. */
  lemma Pythagoras(a: Vec, x: Vec)
    requires IsSteering(a)
    ensures Norm2(x) == Norm2(Project(a, x)) + 0.25 * Power(Dot(a, x))
    ensures Dot(a, Project(a, x)) == ZERO
  {
    hide Dot, Norm2, Power, Minus, Times, Mul;
    var d := Dot(a, x);
    var q := Scale(0.25, d);
    var t := Times(q, a);
    assert Norm2(t) == 0.25 * Power(d) by {
      NormTimes(q, a);
      PowerScale(0.25, d);
    }
    assert Dot(x, t).re == 0.25 * Power(d) by {
      DotTimes(x, q, a);
      DotConj(x, a);
      MulScale(0.25, d, Conj(d));
      MulConj(d);
    }
    NormMinus(x, t);
    assert Dot(a, t) == d by {
      DotTimes(a, q, a);
      DotSelf(a);
      MulReal(q, 4.0);
    }
    DotMinus(a, x, t);
  }

  /** y* = (P x)^H u + (a^H x)* / 4: the output splits along the constraint. */
  lemma OutputSplits(w: Vec, a: Vec, x: Vec)
    requires IsSteering(a) && UnitGain(a, w)
    ensures Conj(Dot(w, x)) == Add(Dot(Project(a, x), Offset(w, a)), Scale(0.25, Conj(Dot(a, x))))
  {
    hide Dot, Norm2, Stretch, Minus, Times, Mul;
    var u, p, d := Offset(w, a), Project(a, x), Dot(a, x);
    assert Dot(u, p) == Dot(u, x) by {
      OffsetIsOrthogonal(w, a);
      DotMinus(u, x, Times(Scale(0.25, d), a));
      DotTimes(u, Scale(0.25, d), a);
      DotConj(u, a);
      MulZero(Scale(0.25, d));
    }
    assert Dot(x, u) == Sub(Dot(x, w), Scale(0.25, Dot(x, a))) by {
      DotMinus(x, w, Stretch(0.25, a));
      DotStretch(x, 0.25, a);
    }
    DotConj(x, a); DotConj(x, w); DotConj(p, u); DotConj(u, x);
  }

  /** x^H P x = |P x|^2. */
  lemma ProjectedPower(a: Vec, x: Vec)
    requires IsSteering(a)
    ensures Dot(x, Project(a, x)) == C(Norm2(Project(a, x)), 0.0)
  {
    hide Dot, Norm2, Minus, Times, Mul;
    var p, d := Project(a, x), Dot(a, x);
    Pythagoras(a, x);
    // p^H p = p^H x - (a^H x / 4) p^H a, and p^H a = 0
    DotMinus(p, x, Times(Scale(0.25, d), a));
    DotTimes(p, Scale(0.25, d), a);
    DotConj(p, a);
    MulZero(Scale(0.25, d));
    DotSelf(p);
    DotConj(x, p);
  }

  lemma MixedOutput(y: Complex, h: Complex, g: Complex, mu: real, q: real, alpha: real)
    requires Conj(y) == Add(g, Scale(0.25, Conj(h)))
    ensures Conj(Add(Sub(Scale(alpha, g), Mul(Scale(mu, Conj(y)), C(q, 0.0))), Scale(0.25, Conj(h))))
         == Add(Scale(alpha - mu * q, y), Scale(0.25 * (1.0 - alpha), h))
  {
    MixedCoordinate(y.re, h.re, mu, q, alpha);
    MixedCoordinate(-y.im, -h.im, mu, q, alpha);
  }

  lemma MixedCoordinate(y: real, h: real, mu: real, q: real, alpha: real)
    ensures alpha * (y - 0.25 * h) - mu * y * q + 0.25 * h == (alpha - mu * q) * y + 0.25 * (1.0 - alpha) * h
  {
  }

  /** From weights on the constraint, adapting to a snapshot with a leak mixes its output with that
      of the quiescent weights a / 4. */
  lemma OutputAfterStep(w: Vec, a: Vec, x: Vec, alpha: real, mu: real)
    requires IsSteering(a) && UnitGain(a, w)
    ensures Dot(Adapt(w, a, x, alpha, mu), x)
         == Add(Scale(alpha - mu * Norm2(Project(a, x)), Dot(w, x)), Scale(0.25 * (1.0 - alpha), Dot(a, x)))
  {
    hide Dot, Norm2, Project, Adapt, Offset, Minus, Times, Stretch, Mul, Scale, Sub, Add, Conj;
    var w', p, y := Adapt(w, a, x, alpha, mu), Project(a, x), Dot(w, x);
    var u, m := Offset(w, a), Scale(mu, Conj(y));
    StepRestoresUnitGain(w, a, x, alpha, mu);
    OffsetStep(w, a, x, alpha, mu);
    OutputSplits(w, a, x);
    OutputSplits(w', a, x);
    assert Dot(p, Offset(w', a)) == Sub(Scale(alpha, Dot(p, u)), Mul(m, C(Norm2(p), 0.0))) by {
      DotMinus(p, Stretch(alpha, u), Times(m, p));
      DotStretch(p, alpha, u);
      DotTimes(p, m, p);
      DotSelf(p);
    }
    MixedOutput(y, Dot(a, x), Dot(p, u), mu, Norm2(p), alpha);
    ConjTwice(Dot(w', x));
  }

  lemma ConjTwice(z: Complex)
    ensures Conj(Conj(z)) == z
  {
  }
}
