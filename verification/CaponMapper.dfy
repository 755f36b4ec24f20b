/** capon_aoa_mapper.py: the single-snapshot covariance x x^H + alpha I, its unpivoted
    Gauss-Jordan inversion, and the minimum-variance spectrum, for one flagged bin. */
module CaponInversion {
  import opened ComplexVectors
  import opened RowReduction

  const N := 4
  const TINY := 0.000000000001
  const TINY_POWER := 0.000000000000000000000001
  const NUDGE := C(0.000001, 0.0)

  function At(v: Vec, i: nat): Complex
    requires i < N
  {
    if i == 0 then v.c0 else if i == 1 then v.c1 else if i == 2 then v.c2 else v.c3
  }

  /** |x_0|^2 + ... + |x_{i-1}|^2. */
  function Prefix(x: Vec, i: nat): (s: real)
    requires i <= N
    ensures s >= 0.0
  {
    if i == 0 then 0.0 else Prefix(x, i - 1) + Power(At(x, i - 1))
  }

  /** alpha plus the power of the first i channels. */
  function Load(x: Vec, alpha: real, i: nat): real
    requires i <= N
  {
    alpha + Prefix(x, i)
  }

  /** x_r x_c^*. */
  function Outer(x: Vec, r: nat, c: nat): Complex
    requires r < N && c < N
  {
    Mul(At(x, r), Conj(At(x, c)))
  }

  function Inv(d: real): (u: real)
    requires d != 0.0
    ensures d * u == 1.0
  {
    1.0 / d
  }

  function Delta(r: nat, c: nat): real { if r == c then 1.0 else 0.0 }

  /** d + s x_r x_c^*: every entry the reduction meets has this form with real d and s. */
  function Entry(d: real, s: real, z: Complex): Complex { Add(C(d, 0.0), Scale(s, z)) }

  function Covariance(x: Vec, alpha: real, r: nat, c: nat): Complex
    requires r < N && c < N
  {
    if r == c then Add(Outer(x, r, c), C(alpha, 0.0)) else Outer(x, r, c)
  }

  /** Before column i every entry of both matrices is diagonal + share * x_r x_c^*, where
      u = 1 / Load(i). The trailing block of the matrix being reduced is alpha I + beta x x^H
      with beta = alpha u. */
  function TempDiagonal(alpha: real, i: nat, r: nat, c: nat): real {
    if c < i then Delta(r, c) else if r < i then 0.0 else alpha * Delta(r, c)
  }

  function TempShare(alpha: real, u: real, i: nat, r: nat, c: nat): real {
    if c < i then 0.0 else if r < i then u else alpha * u
  }

  function InverseDiagonal(a: real, i: nat, r: nat, c: nat): real {
    if c >= i then Delta(r, c) else if r < i then Delta(r, c) * a else 0.0
  }

  function InverseShare(a: real, u: real, i: nat, r: nat, c: nat): real {
    if c >= i then 0.0 else if r < i then -(a * u) else -u
  }

  function Temp(x: Vec, alpha: real, i: nat, r: nat, c: nat): Complex
    requires i <= N && r < N && c < N && alpha > 0.0
  {
    Entry(TempDiagonal(alpha, i, r, c), TempShare(alpha, Inv(Load(x, alpha, i)), i, r, c), Outer(x, r, c))
  }

  function Inverse(x: Vec, alpha: real, i: nat, r: nat, c: nat): Complex
    requires i <= N && r < N && c < N && alpha > 0.0
  {
    Entry(InverseDiagonal(Inv(alpha), i, r, c), InverseShare(Inv(alpha), Inv(Load(x, alpha, i)), i, r, c), Outer(x, r, c))
  }

  // ---- one column, entry by entry ----

  /** (x_r x_i^*)(x_i x_c^*) = |x_i|^2 x_r x_c^*. */
  lemma OuterProduct(x: Vec, r: nat, i: nat, c: nat)
    requires r < N && i < N && c < N
    ensures Mul(Outer(x, r, i), Outer(x, i, c)) == Scale(Power(At(x, i)), Outer(x, r, c))
  {
    hide Mul, Power;
    var p, q, s := At(x, r), At(x, i), Conj(At(x, c));
    MulAssoc(Mul(p, Conj(q)), q, s);
    MulAssoc(p, Conj(q), q);
    MulCommutes(Conj(q), q);
    MulConj(q);
    MulReal(p, Power(q));
    MulScale(Power(q), p, s);
  }

  lemma ScaledProduct(s: real, t: real, k: real, x: Vec, r: nat, i: nat, c: nat)
    requires r < N && i < N && c < N
    requires k == s * t * Power(At(x, i))
    ensures Mul(Scale(s, Outer(x, r, i)), Scale(t, Outer(x, i, c))) == Scale(k, Outer(x, r, c))
  {
    hide Mul, Power, Outer;
    var y, z, o, p := Outer(x, r, i), Outer(x, i, c), Outer(x, r, c), Power(At(x, i));
    assert Mul(Scale(s, y), Scale(t, z)) == Scale(s, Scale(t, Scale(p, o))) by {
      hide Scale;
      MulScale(s, y, Scale(t, z));
      MulScale(t, y, z);
      OuterProduct(x, r, i, c);
    }
    ScaleThrice(s, t, p, k, o);
  }

  lemma ScaleThrice(s: real, t: real, p: real, k: real, z: Complex)
    requires k == s * t * p
    ensures Scale(s, Scale(t, Scale(p, z))) == Scale(k, z)
  {
    Regroup(t, p, z.re); Regroup(s, t * p, z.re); Regroup(s, t, p);
    Regroup(t, p, z.im); Regroup(s, t * p, z.im);
  }

  // ---- the coefficient identities of one elimination: d u = e v = alpha a = 1 and e = d + p ----

  lemma Coefficient(d: real, u: real, e: real, v: real, p: real)
    requires d * u == 1.0 && e * v == 1.0 && e == d + p
    ensures u - u * v * p == v
  {
    assert u * (e * v) == u;
    assert u * (e * v) == u * v * d + u * v * p;
    assert u * v * d == v * (d * u);
  }

  /** Multiplying by alpha or by a keeps the relation. */
  lemma CoefficientTimes(k: real, u: real, v: real, p: real)
    requires u - u * v * p == v
    ensures k * u - k * u * v * p == k * v
  {
    var w := u * v * p;
    Distribute(k, u, w);
    Regroup(k, u * v, p); Regroup(k, u, v);
  }

  /** (alpha u) (a v) p = u v p. */
  lemma Cancel(alpha: real, a: real, u: real, w: real)
    requires alpha * a == 1.0
    ensures (alpha * u) * (a * w) == u * w
  {
    Regroup(alpha, u, a * w); Regroup(u, a, w); Regroup(alpha, a, u * w);
  }

  lemma CoefficientDiagonal(a: real, d: real, e: real, v: real, p: real)
    requires e * v == 1.0 && e == d + p
    ensures a - a * v * p == d * (a * v)
  {
    assert a * (e * v) == a;
    assert a * (e * v) == d * (a * v) + a * v * p;
  }

  /** The pivot alpha + alpha u p is alpha e u, and d (a v) is its reciprocal. */
  lemma CoefficientPivot(alpha: real, a: real, d: real, u: real, e: real, v: real, p: real)
    requires alpha * a == 1.0 && d * u == 1.0 && e * v == 1.0 && e == d + p
    ensures (alpha + alpha * u * p) * (d * (a * v)) == 1.0
  {
    var q := alpha + alpha * u * p;
    assert q * d == alpha * e by {
      assert q * d == alpha * d + alpha * p * (d * u);
      Distribute(alpha, d, p);
    }
    Regroup(q, d, a * v);
    Cancel(alpha, a, e, v);
  }

  // ---- the pivot ----

  /** The pivot of column i. */
  function Pivot(x: Vec, alpha: real, i: nat): real
    requires i < N && alpha > 0.0
  {
    alpha + alpha * Inv(Load(x, alpha, i)) * Power(At(x, i))
  }

  lemma LoadGrows(x: Vec, alpha: real, i: nat)
    requires i < N && alpha > 0.0
    ensures Load(x, alpha, i) > 0.0 && Load(x, alpha, i + 1) == Load(x, alpha, i) + Power(At(x, i)) > 0.0
  {
    hide Power;
  }

  lemma InvPositive(d: real)
    requires d > 0.0
    ensures Inv(d) > 0.0
  {
  }

  /** Every pivot is real and at least alpha, whatever the snapshot. */
  lemma PivotAtLeastAlpha(x: Vec, alpha: real, i: nat)
    requires i < N && alpha > 0.0
    ensures Load(x, alpha, i) > 0.0
    ensures Temp(x, alpha, i, i, i) == C(Pivot(x, alpha, i), 0.0)
    ensures Pivot(x, alpha, i) >= alpha
  {
    hide Power, Mul, Inv;
    LoadGrows(x, alpha, i);
    MulConj(At(x, i));
    var u, p := Inv(Load(x, alpha, i)), Power(At(x, i));
    InvPositive(Load(x, alpha, i));
    ProductNonNegative(alpha, u);
    ProductNonNegative(alpha * u, p);
  }

  /** The reciprocal of the pivot. */
  lemma PivotReciprocal(x: Vec, alpha: real, i: nat)
    requires i < N && alpha > 0.0
    ensures Load(x, alpha, i) > 0.0 && Load(x, alpha, i + 1) > 0.0 && Pivot(x, alpha, i) > 0.0
    ensures Inv(Pivot(x, alpha, i)) == Load(x, alpha, i) * (Inv(alpha) * Inv(Load(x, alpha, i + 1)))
  {
    hide Power, Mul, Inv;
    LoadGrows(x, alpha, i);
    PivotAtLeastAlpha(x, alpha, i);
    var d, e := Load(x, alpha, i), Load(x, alpha, i + 1);
    CoefficientPivot(alpha, Inv(alpha), d, Inv(d), e, Inv(e), Power(At(x, i)));
    UniqueInverse(Pivot(x, alpha, i), Inv(Pivot(x, alpha, i)), d * (Inv(alpha) * Inv(e)));
  }

  lemma UniqueInverse(q: real, u: real, v: real)
    requires q * u == 1.0 && q * v == 1.0
    ensures u == v
  {
    assert u * (q * v) == v * (q * u);
  }

  // ---- one column, entry by entry ----

  lemma ScaleTwice(s: real, t: real, k: real, z: Complex)
    requires k == s * t
    ensures Scale(s, Scale(t, z)) == Scale(k, z)
  {
    Regroup(s, t, z.re); Regroup(s, t, z.im);
  }

  lemma ScaleEntry(d: real, s: real, k: real, d': real, s': real, z: Complex)
    requires d' == d * k && s' == s * k
    ensures Mul(Entry(d, s, z), C(k, 0.0)) == Entry(d', s', z)
  {
    hide Mul;
    MulReal(Entry(d, s, z), k);
    Distribute(k, d, s * z.re);
    Regroup(k, s, z.re); Regroup(k, s, z.im);
  }

  lemma OuterDiagonal(x: Vec, i: nat)
    requires i < N
    ensures Outer(x, i, i) == C(Power(At(x, i)), 0.0)
  {
    MulConj(At(x, i));
  }

  /** The elimination of one entry, in terms of its coefficients. */
  lemma SubtractProduct(d: real, s: real, f: real, d': real, s': real, g: real, k: real, x: Vec, r: nat, i: nat, c: nat)
    requires r < N && i < N && c < N && (d' == 0.0 || c == i)
    requires g == f * s' * Power(At(x, i))
    requires k == s - (if c == i then f * d' else 0.0) - g
    ensures Sub(Entry(d, s, Outer(x, r, c)), Mul(Entry(0.0, f, Outer(x, r, i)), Entry(d', s', Outer(x, i, c)))) == Entry(d, k, Outer(x, r, c))
  {
    var o, z, w := Outer(x, r, c), Outer(x, r, i), Outer(x, i, c);
    var h := if c == i then f * d' else 0.0;
    hide Mul, Outer, Power;
    assert Entry(0.0, f, z) == Scale(f, z);
    assert Mul(Scale(f, z), Entry(d', s', w)) == Add(Scale(h, o), Scale(g, o)) by {
      MulAdd(Scale(f, z), C(d', 0.0), Scale(s', w));
      ScaledProduct(f, s', g, x, r, i, c);
      MulReal(Scale(f, z), d');
      assert Scale(d', Scale(f, z)) == Scale(h, o) by {
        if c == i { ScaleTwice(d', f, h, z); } else { assert d' == 0.0; ScaleNothing(Scale(f, z)); ScaleNothing(o); }
      }
    }
    Distribute(o.re, s, h); Distribute(o.im, s, h);
    Distribute(o.re, s - h, g); Distribute(o.im, s - h, g);
  }

  lemma ScaleNothing(z: Complex)
    ensures Scale(0.0, z) == ZERO
  {
  }

  /** Dividing row i by the pivot turns it into the next row i. */
  lemma ScaleTempRow(x: Vec, alpha: real, i: nat, c: nat)
    requires i < N && c < N && alpha > 0.0
    ensures Pivot(x, alpha, i) > 0.0
    ensures Mul(Temp(x, alpha, i, i, c), C(Inv(Pivot(x, alpha, i)), 0.0)) == Temp(x, alpha, i + 1, i, c)
  {
    hide Mul, Power, Outer, Inv, Entry, Load, TempDiagonal, TempShare;
    LoadGrows(x, alpha, i);
    PivotAtLeastAlpha(x, alpha, i);
    PivotReciprocal(x, alpha, i);
    var q, a, z := Pivot(x, alpha, i), Inv(alpha), Outer(x, i, c);
    var d, e := Load(x, alpha, i), Load(x, alpha, i + 1);
    if c == i {
      MulReal(C(q, 0.0), Inv(q));
      UnitColumn(alpha, Inv(e), i, z);
    } else {
      ScaleTempEntry(alpha, a, d, Inv(d), Inv(e), Inv(q), z, i, c);
    }
  }

  lemma UnitColumn(alpha: real, v: real, i: nat, z: Complex)
    ensures Entry(TempDiagonal(alpha, i + 1, i, i), TempShare(alpha, v, i + 1, i, i), z) == ONE
  {
    EntryNone(1.0, z);
  }

  lemma ScaleTempEntry(alpha: real, a: real, d: real, u: real, v: real, k: real, z: Complex, i: nat, c: nat)
    requires alpha * a == 1.0 && d * u == 1.0 && k == d * (a * v) && c != i
    ensures Mul(Entry(TempDiagonal(alpha, i, i, c), TempShare(alpha, u, i, i, c), z), C(k, 0.0))
         == Entry(TempDiagonal(alpha, i + 1, i, c), TempShare(alpha, v, i + 1, i, c), z)
  {
    hide Mul, Entry;
    if c < i {
      ScaleEntry(0.0, 0.0, k, 0.0, 0.0, z);
    } else {
      ShareTimesReciprocal(alpha, a, d, u, v);
      ScaleEntry(0.0, alpha * u, k, 0.0, v, z);
    }
  }

  lemma ShareTimesReciprocal(alpha: real, a: real, d: real, u: real, v: real)
    requires alpha * a == 1.0 && d * u == 1.0
    ensures (alpha * u) * (d * (a * v)) == v
    ensures u * (d * (a * v)) == a * v
  {
    var m, n := alpha * a, d * u;
    UnitTimes(m, v); UnitTimes(n, a * v); UnitTimes(n, m * v);
    assert (alpha * u) * (d * (a * v)) == n * (m * v) by {
      Regroup(alpha * u, d, a * v); Regroup(alpha, u, d); Regroup(alpha, n, a * v); Regroup(alpha, a, v);
    }
  }

  lemma UnitTimes(x: real, y: real)
    requires x == 1.0
    ensures x * y == y
  {
    assert Product(x, y) == Product(1.0, y);
  }

  lemma NegativeProduct(x: real, y: real)
    ensures (-x) * y == -(x * y)
  {
  }

  lemma ScaleOne(k: real)
    ensures Scale(k, ONE) == C(k, 0.0)
  {
  }

  lemma InverseDiagonalEntry(a: real, d: real, e: real, v: real, p: real)
    requires e * v == 1.0 && e == d + p
    ensures Entry(a, -(a * v), C(p, 0.0)) == C(d * (a * v), 0.0)
  {
    CoefficientDiagonal(a, d, e, v, p);
    NegativeProduct(a * v, p);
  }

  lemma EntryNone(d: real, z: Complex)
    ensures Entry(d, 0.0, z) == C(d, 0.0)
  {
    ScaleNothing(z);
  }

  lemma EntryUnit(d: real, z: Complex)
    ensures Entry(d, 1.0, z) == Add(z, C(d, 0.0))
  {
  }

  lemma ScaleInverseRow(x: Vec, alpha: real, i: nat, c: nat)
    requires i < N && c < N && alpha > 0.0
    ensures Pivot(x, alpha, i) > 0.0
    ensures Mul(Inverse(x, alpha, i, i, c), C(Inv(Pivot(x, alpha, i)), 0.0)) == Inverse(x, alpha, i + 1, i, c)
  {
    hide Mul, Power, Outer, Inv, Entry, Load, InverseDiagonal, InverseShare;
    LoadGrows(x, alpha, i);
    PivotReciprocal(x, alpha, i);
    var a, d, e, z := Inv(alpha), Load(x, alpha, i), Load(x, alpha, i + 1), Outer(x, i, c);
    if c == i {
      OuterDiagonal(x, i);
    }
    ScaleInverseEntry(alpha, a, d, Inv(d), e, Inv(e), Power(At(x, i)), Inv(Pivot(x, alpha, i)), z, i, c);
  }

  lemma ScaleInverseEntry(alpha: real, a: real, d: real, u: real, e: real, v: real, p: real, k: real, z: Complex, i: nat, c: nat)
    requires alpha * a == 1.0 && d * u == 1.0 && e * v == 1.0 && e == d + p && k == d * (a * v)
    requires c == i ==> z == C(p, 0.0)
    ensures Mul(Entry(InverseDiagonal(a, i, i, c), InverseShare(a, u, i, i, c), z), C(k, 0.0))
         == Entry(InverseDiagonal(a, i + 1, i, c), InverseShare(a, v, i + 1, i, c), z)
  {
    hide Mul;
    if c < i {
      ShareTimesReciprocal(alpha, a, d, u, v);
      NegativeProduct(u, k);
      hide Entry;
      ScaleEntry(0.0, -u, k, 0.0, -(a * v), z);
    } else if c == i {
      assert Entry(InverseDiagonal(a, i + 1, i, c), InverseShare(a, v, i + 1, i, c), z) == C(k, 0.0) by {
        hide Entry;
        UnitTimes(1.0, a);
        InverseDiagonalEntry(a, d, e, v, p);
      }
      EntryNone(1.0, z);
      ScaleOne(k);
      MulReal(ONE, k);
    } else {
      hide Entry;
      ScaleEntry(0.0, 0.0, k, 0.0, 0.0, z);
    }
  }

  lemma EliminateTemp(x: Vec, alpha: real, i: nat, r: nat, c: nat)
    requires i < N && r < N && c < N && r != i && alpha > 0.0
    ensures Sub(Temp(x, alpha, i, r, c), Mul(Temp(x, alpha, i, r, i), Temp(x, alpha, i + 1, i, c))) == Temp(x, alpha, i + 1, r, c)
  {
    hide Mul, Power, Outer, Inv, Entry;
    LoadGrows(x, alpha, i);
    var d, e, p := Load(x, alpha, i), Load(x, alpha, i + 1), Power(At(x, i));
    var u, v := Inv(d), Inv(e);
    var f := TempShare(alpha, u, i, r, i);
    var s' := TempShare(alpha, v, i + 1, i, c);
    if c > i {
      Coefficient(d, u, e, v, p);
      CoefficientTimes(alpha, u, v, p);
    }
    SubtractProduct(TempDiagonal(alpha, i, r, c), TempShare(alpha, u, i, r, c), f,
      TempDiagonal(alpha, i + 1, i, c), s', f * s' * p, TempShare(alpha, v, i + 1, r, c), x, r, i, c);
  }

  lemma EliminateInverse(x: Vec, alpha: real, i: nat, r: nat, c: nat)
    requires i < N && r < N && c < N && r != i && alpha > 0.0
    ensures Sub(Inverse(x, alpha, i, r, c), Mul(Temp(x, alpha, i, r, i), Inverse(x, alpha, i + 1, i, c))) == Inverse(x, alpha, i + 1, r, c)
  {
    hide Mul, Power, Outer, Inv, Entry;
    LoadGrows(x, alpha, i);
    var d, e, p := Load(x, alpha, i), Load(x, alpha, i + 1), Power(At(x, i));
    var a, u, v := Inv(alpha), Inv(d), Inv(e);
    var f := TempShare(alpha, u, i, r, i);
    var s' := InverseShare(a, v, i + 1, i, c);
    if c <= i {
      InverseShareStep(alpha, a, d, u, e, v, p, f, r < i);
    }
    SubtractProduct(InverseDiagonal(a, i, r, c), InverseShare(a, u, i, r, c), f,
      InverseDiagonal(a, i + 1, i, c), s', f * s' * p, InverseShare(a, v, i + 1, r, c), x, r, i, c);
  }

  /** Columns c <= i of the inverse; `above` says whether the row is above the pivot row. */
  lemma InverseShareStep(alpha: real, a: real, d: real, u: real, e: real, v: real, p: real, f: real, above: bool)
    requires alpha * a == 1.0 && d * u == 1.0 && e * v == 1.0 && e == d + p
    requires f == if above then u else alpha * u
    ensures f * (-(a * v)) * p == if above then a * v - a * u else v - u
    ensures f * a == if above then a * u else u
  {
    assert f * a == if above then a * u else u by { if !above { Cancel(alpha, a, u, 1.0); } }
    var w := f * a;
    assert f * (-(a * v)) * p == -(w * v * p) by { Regroup(f, a, v); NegativeProduct(f * (a * v), p); }
    Coefficient(d, u, e, v, p);
    if above {
      assert w * v * p == a * u * v * p;
      CoefficientTimes(a, u, v, p);
    } else {
      assert w * v * p == u * v * p;
    }
  }

  /** A snapshot can drive some pivot under the guard exactly when the loading itself is. */
  lemma GuardNeedsTinyLoading(alpha: real)
    requires alpha > 0.0
    ensures (exists x: Vec, i: nat :: i < N && Pivot(x, alpha, i) < TINY) <==> alpha < TINY
  {
    hide Power, Inv, Pivot;
    SilentPivot(alpha);
    forall x: Vec, i: nat | i < N ensures Pivot(x, alpha, i) >= alpha {
      PivotAtLeastAlpha(x, alpha, i);
    }
  }

  lemma SilentPivot(alpha: real)
    requires alpha > 0.0
    ensures Pivot(Vec(ZERO, ZERO, ZERO, ZERO), alpha, 0) == alpha
  {
    hide Power, Inv;
    PowerOfZero();
    var k := alpha * Inv(Load(Vec(ZERO, ZERO, ZERO, ZERO), alpha, 0));
    assert k * 0.0 == 0.0;
  }

  // ---- the arrays ----

  ghost predicate Square4(m: array2<Complex>) { m.Length0 == N && m.Length1 == N }

  method FormCovariance(x: Vec, load: real, pool: array2<Complex>)
    requires Square4(pool)
    modifies pool
    ensures forall r, c :: 0 <= r < N && 0 <= c < N ==> pool[r, c] == Covariance(x, load, r, c)
  {
    for i := 0 to N
      invariant forall r, c :: 0 <= r < i && 0 <= c < N ==> pool[r, c] == Covariance(x, load, r, c)
    {
      for j := 0 to N
        invariant forall r, c :: 0 <= r < i && 0 <= c < N ==> pool[r, c] == Covariance(x, load, r, c)
        invariant forall c :: 0 <= c < j ==> pool[i, c] == Outer(x, i, c)
      {
        pool[i, j] := Mul(At(x, i), Conj(At(x, j)));
      }
      pool[i, i] := Add(pool[i, i], C(load, 0.0));
    }
  }

  /** The matrices before column 0. */
  lemma StartsAsCovariance(x: Vec, alpha: real, r: nat, c: nat)
    requires r < N && c < N && alpha > 0.0
    ensures Temp(x, alpha, 0, r, c) == Covariance(x, alpha, r, c)
    ensures Inverse(x, alpha, 0, r, c) == if r == c then ONE else ZERO
  {
    hide Outer, Inv, Entry;
    var o, u := Outer(x, r, c), Inv(Load(x, alpha, 0));
    assert Load(x, alpha, 0) == alpha;
    assert alpha * u == 1.0;
    EntryUnit(alpha * Delta(r, c), o);
    assert Add(o, ZERO) == o;
    EntryNone(Delta(r, c), o);
  }

  method PivotRow(x: Vec, alpha: real, temp: array2<Complex>, inv: array2<Complex>, i: nat)
    requires Square4(temp) && Square4(inv) && temp != inv && i < N && alpha >= TINY
    requires forall r, c :: 0 <= r < N && 0 <= c < N ==> temp[r, c] == Temp(x, alpha, i, r, c)
    requires forall r, c :: 0 <= r < N && 0 <= c < N ==> inv[r, c] == Inverse(x, alpha, i, r, c)
    modifies temp, inv
    ensures forall r, c :: 0 <= r < N && 0 <= c < N ==> temp[r, c] == Temp(x, alpha, if r == i then i + 1 else i, r, c)
    ensures forall r, c :: 0 <= r < N && 0 <= c < N ==> inv[r, c] == Inverse(x, alpha, if r == i then i + 1 else i, r, c)
  {
    hide Mul, Temp, Inverse, Power, Pivot;
    var pivot := temp[i, i];
    PivotAtLeastAlpha(x, alpha, i);
    PivotIsNotTiny(Pivot(x, alpha, i));
    if Power(pivot) < TINY_POWER {
      pivot := Add(pivot, NUDGE);
    }
    assert pivot == C(Pivot(x, alpha, i), 0.0);
    var invPivot := Reciprocal(pivot);
    ReciprocalOfReal(Pivot(x, alpha, i));
    for j := 0 to N
      invariant forall r, c :: 0 <= r < N && 0 <= c < N ==> temp[r, c] == Temp(x, alpha, if r == i && c < j then i + 1 else i, r, c)
      invariant forall r, c :: 0 <= r < N && 0 <= c < N ==> inv[r, c] == Inverse(x, alpha, if r == i && c < j then i + 1 else i, r, c)
    {
      ScaleTempRow(x, alpha, i, j);
      ScaleInverseRow(x, alpha, i, j);
      temp[i, j] := Mul(temp[i, j], invPivot);
      inv[i, j] := Mul(inv[i, j], invPivot);
    }
  }

  lemma PivotIsNotTiny(q: real)
    requires q >= TINY
    ensures Power(C(q, 0.0)) >= TINY_POWER
  {
    assert q * q >= TINY * TINY;
  }

  lemma ReciprocalOfReal(q: real)
    requires q > 0.0
    ensures Power(C(q, 0.0)) != 0.0 && Reciprocal(C(q, 0.0)) == C(Inv(q), 0.0)
  {
    ProductPositive(q, q);
    var z := C(q, 0.0);
    MulReciprocal(z);
    var w := Reciprocal(z);
    assert q * w.re == 1.0;
    UniqueInverse(q, w.re, Inv(q));
  }

  method EliminateRow(x: Vec, alpha: real, temp: array2<Complex>, inv: array2<Complex>, i: nat, k: nat)
    requires Square4(temp) && Square4(inv) && temp != inv && i < N && k < N && k != i && alpha > 0.0
    requires forall r, c :: 0 <= r < N && 0 <= c < N ==> temp[r, c] == Temp(x, alpha, if r == i || r < k then i + 1 else i, r, c)
    requires forall r, c :: 0 <= r < N && 0 <= c < N ==> inv[r, c] == Inverse(x, alpha, if r == i || r < k then i + 1 else i, r, c)
    modifies temp, inv
    ensures forall r, c :: 0 <= r < N && 0 <= c < N ==> temp[r, c] == Temp(x, alpha, if r == i || r < k + 1 then i + 1 else i, r, c)
    ensures forall r, c :: 0 <= r < N && 0 <= c < N ==> inv[r, c] == Inverse(x, alpha, if r == i || r < k + 1 then i + 1 else i, r, c)
  {
    hide Mul, Temp, Inverse;
    var factor := temp[k, i];
    for j := 0 to N
      invariant forall r, c :: 0 <= r < N && 0 <= c < N ==> temp[r, c] == Temp(x, alpha, if r == i || r < k || (r == k && c < j) then i + 1 else i, r, c)
      invariant forall r, c :: 0 <= r < N && 0 <= c < N ==> inv[r, c] == Inverse(x, alpha, if r == i || r < k || (r == k && c < j) then i + 1 else i, r, c)
    {
      EliminateTemp(x, alpha, i, k, j);
      EliminateInverse(x, alpha, i, k, j);
      temp[k, j] := Sub(temp[k, j], Mul(factor, temp[i, j]));
      inv[k, j] := Sub(inv[k, j], Mul(factor, inv[i, j]));
    }
  }

  /** The unpivoted reduction of the loaded covariance: the reduced matrix ends as I, and the
      guard, which would spoil it, is never taken. */
  method Invert(x: Vec, alpha: real, cov: array2<Complex>, temp: array2<Complex>, inv: array2<Complex>)
    requires Square4(cov) && Square4(temp) && Square4(inv) && temp != inv && cov != temp && cov != inv && alpha >= TINY
    requires forall r, c :: 0 <= r < N && 0 <= c < N ==> cov[r, c] == Covariance(x, alpha, r, c)
    modifies temp, inv
    ensures forall r, c :: 0 <= r < N && 0 <= c < N ==> temp[r, c] == if r == c then ONE else ZERO
    ensures forall r, c :: 0 <= r < N && 0 <= c < N ==> inv[r, c] == Inverse(x, alpha, N, r, c)
  {
    hide Covariance, Temp, Inverse, Mul;
    for i := 0 to N
      invariant forall r, c :: 0 <= r < i && 0 <= c < N ==> temp[r, c] == Temp(x, alpha, 0, r, c)
      invariant forall r, c :: 0 <= r < i && 0 <= c < N ==> inv[r, c] == Inverse(x, alpha, 0, r, c)
    {
      for j := 0 to N
        invariant forall r, c :: 0 <= r < i && 0 <= c < N ==> temp[r, c] == Temp(x, alpha, 0, r, c)
        invariant forall r, c :: 0 <= r < i && 0 <= c < N ==> inv[r, c] == Inverse(x, alpha, 0, r, c)
        invariant forall c :: 0 <= c < j ==> temp[i, c] == Temp(x, alpha, 0, i, c)
        invariant forall c :: 0 <= c < j ==> inv[i, c] == Inverse(x, alpha, 0, i, c)
      {
        StartsAsCovariance(x, alpha, i, j);
        inv[i, j] := if i == j then ONE else ZERO;
        temp[i, j] := cov[i, j];
      }
    }
    for i := 0 to N
      invariant forall r, c :: 0 <= r < N && 0 <= c < N ==> temp[r, c] == Temp(x, alpha, i, r, c)
      invariant forall r, c :: 0 <= r < N && 0 <= c < N ==> inv[r, c] == Inverse(x, alpha, i, r, c)
    {
      PivotRow(x, alpha, temp, inv, i);
      for k := 0 to N
        invariant forall r, c :: 0 <= r < N && 0 <= c < N ==> temp[r, c] == Temp(x, alpha, if r == i || r < k then i + 1 else i, r, c)
        invariant forall r, c :: 0 <= r < N && 0 <= c < N ==> inv[r, c] == Inverse(x, alpha, if r == i || r < k then i + 1 else i, r, c)
      {
        if k != i {
          EliminateRow(x, alpha, temp, inv, i, k);
        }
      }
    }
    forall r: nat, c: nat | r < N && c < N ensures Temp(x, alpha, N, r, c) == if r == c then ONE else ZERO {
      EndsAsIdentity(x, alpha, r, c);
    }
  }

  lemma EndsAsIdentity(x: Vec, alpha: real, r: nat, c: nat)
    requires r < N && c < N && alpha > 0.0
    ensures Temp(x, alpha, N, r, c) == if r == c then ONE else ZERO
  {
    hide Outer, Inv, Entry, Load;
    EntryNone(Delta(r, c), Outer(x, r, c));
  }
}
