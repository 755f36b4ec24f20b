/** Complex numbers and four-channel vectors over exact reals. */
module ComplexVectors {

  datatype Complex = C(re: real, im: real)

  const ZERO := C(0.0, 0.0)
  const ONE := C(1.0, 0.0)

  function Add(a: Complex, b: Complex): Complex { C(a.re + b.re, a.im + b.im) }
  function Sub(a: Complex, b: Complex): Complex { C(a.re - b.re, a.im - b.im) }
  function Mul(a: Complex, b: Complex): Complex { C(a.re * b.re - a.im * b.im, a.re * b.im + a.im * b.re) }
  function Conj(a: Complex): Complex { C(a.re, -a.im) }
  function Scale(k: real, a: Complex): Complex { C(k * a.re, k * a.im) }

  function Square(x: real): real { x * x }

  /** |a|^2. */
  function Power(a: Complex): (p: real)
    ensures p >= 0.0
  {
    Square(a.re) + Square(a.im)
  }

  datatype Vec = Vec(c0: Complex, c1: Complex, c2: Complex, c3: Complex)

  function Plus(u: Vec, v: Vec): Vec { Vec(Add(u.c0, v.c0), Add(u.c1, v.c1), Add(u.c2, v.c2), Add(u.c3, v.c3)) }
  function Minus(u: Vec, v: Vec): Vec { Vec(Sub(u.c0, v.c0), Sub(u.c1, v.c1), Sub(u.c2, v.c2), Sub(u.c3, v.c3)) }
  function Times(z: Complex, v: Vec): Vec { Vec(Mul(z, v.c0), Mul(z, v.c1), Mul(z, v.c2), Mul(z, v.c3)) }
  function Stretch(k: real, v: Vec): Vec { Vec(Scale(k, v.c0), Scale(k, v.c1), Scale(k, v.c2), Scale(k, v.c3)) }

  /** u^H v. */
  function Dot(u: Vec, v: Vec): Complex {
    Add(Add(Add(Mul(Conj(u.c0), v.c0), Mul(Conj(u.c1), v.c1)), Mul(Conj(u.c2), v.c2)), Mul(Conj(u.c3), v.c3))
  }

  /** |v|^2. */
  function Norm2(v: Vec): (n: real)
    ensures n >= 0.0
  {
    Power(v.c0) + Power(v.c1) + Power(v.c2) + Power(v.c3)
  }

  /** The polynomial identities below are assembled from these two. */
  lemma Distribute(k: real, x: real, y: real)
    ensures k * (x + y) == k * x + k * y
    ensures k * (x - y) == k * x - k * y
  {
  }

  lemma Regroup(x: real, y: real, z: real)
    ensures x * (y * z) == (x * y) * z == y * (x * z)
  {
  }

  lemma MulAssoc(a: Complex, b: Complex, c: Complex)
    ensures Mul(a, Mul(b, c)) == Mul(Mul(a, b), c)
  {
    Distribute(a.re, b.re * c.re, b.im * c.im); Distribute(a.im, b.re * c.im, b.im * c.re);
    Distribute(a.re, b.re * c.im, b.im * c.re); Distribute(a.im, b.re * c.re, b.im * c.im);
    Distribute(c.re, a.re * b.re, a.im * b.im); Distribute(c.im, a.re * b.im, a.im * b.re);
    Distribute(c.im, a.re * b.re, a.im * b.im); Distribute(c.re, a.re * b.im, a.im * b.re);
    Regroup(a.re, b.re, c.re); Regroup(a.re, b.im, c.im); Regroup(a.im, b.re, c.im); Regroup(a.im, b.im, c.re);
    Regroup(a.re, b.re, c.im); Regroup(a.re, b.im, c.re); Regroup(a.im, b.re, c.re); Regroup(a.im, b.im, c.im);
  }

  lemma MulCommutes(a: Complex, b: Complex)
    ensures Mul(a, b) == Mul(b, a)
  {
  }

  function Product(x: real, y: real): real { x * y }

  lemma ProductPositive(x: real, y: real)
    requires x > 0.0 && y > 0.0
    ensures Product(x, y) > 0.0
  {
  }

  lemma ProductNonNegative(x: real, y: real)
    requires x >= 0.0 && y >= 0.0
    ensures x * y >= 0.0
  {
  }

  lemma SquarePositive(x: real)
    ensures Square(x) >= 0.0 && (Square(x) == 0.0 <==> x == 0.0)
  {
    assert Product(x, x) == Product(-x, -x) == Square(x);
    if x > 0.0 {
      ProductPositive(x, x);
    } else if x < 0.0 {
      ProductPositive(-x, -x);
    } else {
      assert x == 0.0;
    }
  }

  lemma MulConj(a: Complex)
    ensures Mul(a, Conj(a)) == C(Power(a), 0.0)
  {
  }

  lemma MulReal(a: Complex, k: real)
    ensures Mul(a, C(k, 0.0)) == Scale(k, a)
  {
  }

  lemma MulZero(a: Complex)
    ensures Mul(a, ZERO) == ZERO
  {
  }

  lemma MulSwap(a: Complex, b: Complex, c: Complex)
    ensures Mul(a, Mul(b, c)) == Mul(b, Mul(a, c))
  {
    hide Mul;
    MulAssoc(a, b, c); MulAssoc(b, a, c); MulCommutes(a, b);
  }

  lemma MulAdd(a: Complex, b: Complex, c: Complex)
    ensures Mul(a, Add(b, c)) == Add(Mul(a, b), Mul(a, c))
  {
    Distribute(a.re, b.re, c.re); Distribute(a.im, b.im, c.im); Distribute(a.re, b.im, c.im); Distribute(a.im, b.re, c.re);
  }

  lemma DotTimes(u: Vec, z: Complex, v: Vec)
    ensures Dot(u, Times(z, v)) == Mul(z, Dot(u, v))
  {
    hide Mul, Conj;
    MulSwap(Conj(u.c0), z, v.c0); MulSwap(Conj(u.c1), z, v.c1); MulSwap(Conj(u.c2), z, v.c2); MulSwap(Conj(u.c3), z, v.c3);
    var p0, p1, p2, p3 := Mul(Conj(u.c0), v.c0), Mul(Conj(u.c1), v.c1), Mul(Conj(u.c2), v.c2), Mul(Conj(u.c3), v.c3);
    MulAdd(z, Add(Add(p0, p1), p2), p3); MulAdd(z, Add(p0, p1), p2); MulAdd(z, p0, p1);
  }

  lemma DotConj(u: Vec, v: Vec)
    ensures Dot(u, v) == Conj(Dot(v, u))
  {
  }

  lemma DotSelf(v: Vec)
    ensures Dot(v, v) == C(Norm2(v), 0.0)
  {
  }

  lemma DotPlus(u: Vec, v: Vec, w: Vec)
    ensures Dot(u, Plus(v, w)) == Add(Dot(u, v), Dot(u, w))
  {
    hide Mul, Conj;
    MulAdd(Conj(u.c0), v.c0, w.c0); MulAdd(Conj(u.c1), v.c1, w.c1); MulAdd(Conj(u.c2), v.c2, w.c2); MulAdd(Conj(u.c3), v.c3, w.c3);
  }

  lemma DotMinus(u: Vec, v: Vec, w: Vec)
    ensures Dot(u, Minus(v, w)) == Sub(Dot(u, v), Dot(u, w))
  {
    hide Mul, Conj;
    MulSub(Conj(u.c0), v.c0, w.c0); MulSub(Conj(u.c1), v.c1, w.c1); MulSub(Conj(u.c2), v.c2, w.c2); MulSub(Conj(u.c3), v.c3, w.c3);
  }

  lemma MulSub(a: Complex, b: Complex, c: Complex)
    ensures Mul(a, Sub(b, c)) == Sub(Mul(a, b), Mul(a, c))
  {
    Distribute(a.re, b.re, c.re); Distribute(a.im, b.im, c.im); Distribute(a.re, b.im, c.im); Distribute(a.im, b.re, c.re);
  }

  lemma MulScale(k: real, a: Complex, b: Complex)
    ensures Mul(a, Scale(k, b)) == Scale(k, Mul(a, b)) == Mul(Scale(k, a), b)
  {
    Regroup(k, a.re, b.re); Regroup(k, a.im, b.im); Regroup(k, a.re, b.im); Regroup(k, a.im, b.re);
    Distribute(k, a.re * b.re, a.im * b.im); Distribute(k, a.re * b.im, a.im * b.re);
  }

  lemma DotStretch(u: Vec, k: real, v: Vec)
    ensures Dot(u, Stretch(k, v)) == Scale(k, Dot(u, v))
  {
    hide Mul, Conj;
    MulScale(k, Conj(u.c0), v.c0); MulScale(k, Conj(u.c1), v.c1); MulScale(k, Conj(u.c2), v.c2); MulScale(k, Conj(u.c3), v.c3);
    var p0, p1, p2, p3 := Mul(Conj(u.c0), v.c0), Mul(Conj(u.c1), v.c1), Mul(Conj(u.c2), v.c2), Mul(Conj(u.c3), v.c3);
    ScaleAdd(k, Add(Add(p0, p1), p2), p3); ScaleAdd(k, Add(p0, p1), p2); ScaleAdd(k, p0, p1);
  }

  lemma ScaleAdd(k: real, a: Complex, b: Complex)
    ensures Scale(k, Add(a, b)) == Add(Scale(k, a), Scale(k, b))
  {
    Distribute(k, a.re, b.re); Distribute(k, a.im, b.im);
  }

  lemma PowerMul(a: Complex, b: Complex)
    ensures Power(Mul(a, b)) == Power(a) * Power(b)
  {
    var p, q, r, t := a.re * b.re, a.im * b.im, a.re * b.im, a.im * b.re;
    var x, y, u, v := a.re * a.re, a.im * a.im, b.re * b.re, b.im * b.im;
    SquareOfProduct(a.re, b.re); SquareOfProduct(a.im, b.im); SquareOfProduct(a.re, b.im); SquareOfProduct(a.im, b.re);
    assert p * q == r * t by { Regroup(a.re, b.re, q); Regroup(b.re, a.im, b.im); Regroup(a.re, a.im, b.re * b.im);
      Regroup(a.re, b.im, t); Regroup(b.im, a.im, b.re); }
    Distribute(x + y, u, v); Distribute(u, x, y); Distribute(v, x, y);
    SquareOfSum(p, q); SquareOfSum(r, t);
  }

  lemma SquareOfProduct(x: real, y: real)
    ensures (x * y) * (x * y) == (x * x) * (y * y)
  {
    Regroup(x, y, x * y); Regroup(y, x, y); Regroup(x, x, y * y);
  }

  lemma SquareOfSum(x: real, y: real)
    ensures (x + y) * (x + y) == x * x + 2.0 * (x * y) + y * y
    ensures (x - y) * (x - y) == x * x - 2.0 * (x * y) + y * y
  {
    Distribute(x + y, x, y); Distribute(x, x, y); Distribute(y, x, y);
    Distribute(x - y, x, y);
  }

  lemma DistributeFour(k: real, a: real, b: real, c: real, d: real)
    ensures k * (a + b + c + d) == k * a + k * b + k * c + k * d
  {
    Distribute(k, a + b + c, d); Distribute(k, a + b, c); Distribute(k, a, b);
  }

  lemma NormTimes(z: Complex, v: Vec)
    ensures Norm2(Times(z, v)) == Power(z) * Norm2(v)
  {
    hide Power, Mul;
    DistributeFour(Power(z), Power(v.c0), Power(v.c1), Power(v.c2), Power(v.c3));
    PowerMul(z, v.c0); PowerMul(z, v.c1); PowerMul(z, v.c2); PowerMul(z, v.c3);
  }

  lemma PowerScale(k: real, a: Complex)
    ensures Power(Scale(k, a)) == k * k * Power(a)
  {
    var x, y, c := a.re * a.re, a.im * a.im, k * k;
    SquareOfProduct(k, a.re); SquareOfProduct(k, a.im);
    Distribute(c, x, y);
  }

  lemma NormStretch(k: real, v: Vec)
    ensures Norm2(Stretch(k, v)) == k * k * Norm2(v)
  {
    hide Power, Scale;
    DistributeFour(k * k, Power(v.c0), Power(v.c1), Power(v.c2), Power(v.c3));
    PowerScale(k, v.c0); PowerScale(k, v.c1); PowerScale(k, v.c2); PowerScale(k, v.c3);
  }

  lemma PowerSub(a: Complex, b: Complex)
    ensures Power(Sub(a, b)) == Power(a) - 2.0 * Mul(Conj(a), b).re + Power(b)
  {
    SquareOfSum(a.re, b.re); SquareOfSum(a.im, b.im);
  }

  lemma NormMinus(u: Vec, v: Vec)
    ensures Norm2(Minus(u, v)) == Norm2(u) - 2.0 * Dot(u, v).re + Norm2(v)
  {
    hide Power, Mul, Conj, Sub;
    PowerSub(u.c0, v.c0); PowerSub(u.c1, v.c1); PowerSub(u.c2, v.c2); PowerSub(u.c3, v.c3);
  }

  /** With s, t, d for |s|^2, |t|^2, |s-t|^2: the square norm is convex. */
  predicate Convex(k: real, s: real, t: real, d: real) { k * (1.0 - k) * d <= (1.0 - k) * s + k * t }

  lemma ConvexPower(k: real, s: Complex, t: Complex)
    requires 0.0 <= k <= 1.0
    ensures Convex(k, Power(s), Power(t), Power(Sub(s, t)))
  {
    hide Convex;
    var d := Sub(s, t);
    ConvexCoordinate(k, s.re, t.re, d.re);
    ConvexCoordinate(k, s.im, t.im, d.im);
    ConvexSum(k, Square(s.re), Square(t.re), Square(d.re), Square(s.im), Square(t.im), Square(d.im));
  }

  lemma ConvexCoordinate(k: real, s: real, t: real, d: real)
    requires 0.0 <= k <= 1.0 && d == s - t
    ensures Convex(k, Square(s), Square(t), Square(d))
  {
    var m := 1.0 - k;
    var r := m * s + k * t;
    assert r * r >= 0.0;
    assert m * (s * s) + k * (t * t) - k * m * (d * d) == r * r;
  }

  lemma ConvexSum(k: real, s: real, t: real, d: real, s': real, t': real, d': real)
    requires Convex(k, s, t, d) && Convex(k, s', t', d')
    ensures Convex(k, s + s', t + t', d + d')
  {
    Distribute(k * (1.0 - k), d, d'); Distribute(1.0 - k, s, s'); Distribute(k, t, t');
  }

  lemma ConvexNorm(k: real, s: Vec, t: Vec)
    requires 0.0 <= k <= 1.0
    ensures Convex(k, Norm2(s), Norm2(t), Norm2(Minus(s, t)))
  {
    var d := Minus(s, t);
    var p0, p1, p2, p3 := Power(s.c0), Power(s.c1), Power(s.c2), Power(s.c3);
    var q0, q1, q2, q3 := Power(t.c0), Power(t.c1), Power(t.c2), Power(t.c3);
    var r0, r1, r2, r3 := Power(d.c0), Power(d.c1), Power(d.c2), Power(d.c3);
    ConvexPower(k, s.c0, t.c0); ConvexPower(k, s.c1, t.c1); ConvexPower(k, s.c2, t.c2); ConvexPower(k, s.c3, t.c3);
    ConvexSum(k, p0, q0, r0, p1, q1, r1);
    ConvexSum(k, p0 + p1, q0 + q1, r0 + r1, p2, q2, r2);
    ConvexSum(k, p0 + p1 + p2, q0 + q1 + q2, r0 + r1 + r2, p3, q3, r3);
  }
}
