/** cyclic_ls_equalizer.py, _invert_5x5_hermitian: a class of matrices, recognisable from the
    entries alone, on which partial pivoting never meets a tiny pivot; and a stride on which the
    equalizer does. */
module PivotDominance {
  import opened Basics
  import opened ComplexVectors
  import opened RowReduction
  import opened LinearSystems
  import opened Elimination
  import LsEqualizer

  const MARGIN := 0.000000000001

  /** |re| + |im|, at least the modulus. */
  function Size(z: Complex): (s: real)
    ensures s >= 0.0
  {
    Abs(z.re) + Abs(z.im)
  }

  function Over(x: real, d: real): real { if d == 0.0 then 0.0 else x / d }

  /** A bound on the modulus of entry (i, j) before column k, from above off the diagonal and from
      below on it, computed from the entries of A. */
  function Bound(a: seq<Row>, n: nat, k: nat, i: nat, j: nat): real
    requires SquareMatrix(a, n) && k <= n && i < n && j < n
    decreases k, 0
  {
    if k == 0 then (if i == j then Abs(a[i][j].re) else Size(a[i][j]))
    else
      Moved(Bound(a, n, k - 1, i, j), Bound(a, n, k - 1, i, k - 1), Ratio(a, n, k - 1, j), i == j)
  }

  /** The bound s after subtracting at most p t. */
  function Moved(s: real, p: real, t: real, below: bool): real { if below then s - p * t else s + p * t }

  /** The factor by which row k enters column j. */
  function Ratio(a: seq<Row>, n: nat, k: nat, j: nat): real
    requires SquareMatrix(a, n) && k < n && j < n
    decreases k, 1
  {
    Over(Bound(a, n, k, k, j), Bound(a, n, k, k, k))
  }

  /** Sum of the bounds of column j over rows lo .. n-1 other than j. */
  function OffSum(a: seq<Row>, n: nat, k: nat, j: nat, lo: nat): real
    requires SquareMatrix(a, n) && k <= n && j < n && lo <= n
    decreases n - lo
  {
    if lo == n then 0.0 else (if lo == j then 0.0 else Bound(a, n, k, lo, j)) + OffSum(a, n, k, j, lo + 1)
  }

  ghost predicate DominantColumn(a: seq<Row>, n: nat, k: nat, j: nat)
    requires SquareMatrix(a, n) && k <= n && j < n
  {
    (forall i: nat :: k <= i < n ==> Bound(a, n, k, i, j) >= 0.0) && Bound(a, n, k, j, j) >= OffSum(a, n, k, j, k) + MARGIN
  }

  /** From row and column k on, every diagonal bound exceeds the rest of its column by the margin. */
  ghost predicate DominantFrom(a: seq<Row>, n: nat, k: nat)
    requires SquareMatrix(a, n) && k <= n
  {
    forall j: nat :: k <= j < n ==> DominantColumn(a, n, k, j)
  }

  /** Column by column, the real part of the diagonal entry exceeds the sizes of the others by
      1e-12. */
  ghost predicate Dominant(a: seq<Row>, n: nat)
    requires SquareMatrix(a, n)
  {
    forall j: nat :: j < n ==> Abs(a[j][j].re) >= OffSizes(a, n, j, 0) + MARGIN
  }

  function OffSizes(a: seq<Row>, n: nat, j: nat, lo: nat): real
    requires SquareMatrix(a, n) && j < n && lo <= n
    decreases n - lo
  {
    if lo == n then 0.0 else (if lo == j then 0.0 else Size(a[lo][j])) + OffSizes(a, n, j, lo + 1)
  }

  /** The bounds hold for the trailing block of m from row and column k on. */
  ghost predicate Bounded(m: seq<Row>, a: seq<Row>, n: nat, k: nat)
    requires IsMatrix(m, n) && SquareMatrix(a, n) && k <= n
  {
    forall i: nat, j: nat :: k <= i < n && k <= j < n ==> EntryBounded(m[i][j], Bound(a, n, k, i, j), i == j)
  }

  predicate EntryBounded(z: Complex, s: real, below: bool) {
    if below then Power(z) >= Square(s) else Power(z) <= Square(s)
  }

  // ---- moduli without square roots ----

  lemma SizeBounds(z: Complex)
    ensures Power(z) <= Square(Size(z)) && Power(z) >= Square(Abs(z.re))
  {
    var u, v := Abs(z.re), Abs(z.im);
    ProductNonNegative(u, v);
    SquareOfSum(u, v);
    SquarePositive(z.im);
  }

  lemma SquareOrder(x: real, y: real)
    requires 0.0 <= x && 0.0 <= y
    ensures Square(x) <= Square(y) <==> x <= y
  {
    assert Square(y) - Square(x) == (y - x) * (y + x);
    if x < y { ProductPositive(y - x, y + x); } else if y < x { ProductPositive(x - y, y + x); }
  }

  /** The real part of x* y. */
  function Cross(x: Complex, y: Complex): real { Mul(Conj(x), y).re }

  lemma PowerOfConj(x: Complex)
    ensures Power(Conj(x)) == Power(x)
  {
  }

  lemma CrossIdentity(x: Complex, y: Complex)
    ensures Square(Cross(x, y)) <= Power(x) * Power(y)
  {
    var z := Mul(Conj(x), y);
    SquarePositive(z.im);
    assert Square(Cross(x, y)) <= Power(z);
    hide Mul, Conj, Power, Square;
    PowerMul(Conj(x), y);
    PowerOfConj(x);
  }

  /** Cauchy and Schwarz for two numbers. */
  lemma CrossTerm(x: Complex, y: Complex, s: real, t: real)
    requires Power(x) <= Square(s) && Power(y) <= Square(t) && s >= 0.0 && t >= 0.0
    ensures -(s * t) <= Cross(x, y) <= s * t
  {
    hide Power, Cross, Square;
    CrossIdentity(x, y);
    SquaresMultiply(s, t, Power(x), Power(y));
    RootOfSquare(Cross(x, y), s * t);
  }

  lemma SquaresMultiply(s: real, t: real, a: real, b: real)
    requires 0.0 <= a <= Square(s) && 0.0 <= b <= Square(t) && s >= 0.0 && t >= 0.0
    ensures a * b <= Square(s * t) && s * t >= 0.0
  {
    TimesOrder(a, b, Square(t));
    TimesOrder(Square(t), a, Square(s));
    SquareOfProduct(s, t);
    ProductNonNegative(s, t);
  }

  lemma RootOfSquare(c: real, m: real)
    requires Square(c) <= Square(m) && m >= 0.0
    ensures -m <= c <= m
  {
    SquareOrder(Abs(c), m);
  }

  lemma PowerOfSum(z: Complex, y: Complex)
    ensures Power(Add(z, y)) == Power(z) + 2.0 * Cross(z, y) + Power(y)
  {
    SquareOfSum(z.re, y.re); SquareOfSum(z.im, y.im);
  }

  lemma AddBack(x: Complex, y: Complex)
    ensures Add(Sub(x, y), y) == x
  {
  }

  lemma SquareSum(x: real, y: real)
    ensures Square(x + y) == Square(x) + 2.0 * (x * y) + Square(y)
  {
    SquareOfSum(x, y);
  }

  lemma DifferenceAtMost(x: Complex, y: Complex, s: real, t: real)
    requires Power(x) <= Square(s) && Power(y) <= Square(t) && s >= 0.0 && t >= 0.0
    ensures Power(Sub(x, y)) <= Square(s + t)
  {
    hide Power, Square, Sub;
    PowerSub(x, y);
    CrossTerm(x, y, s, t);
    hide *;
    SquareSum(s, t);
  }

  lemma DifferenceAtLeast(x: Complex, y: Complex, s: real, t: real)
    requires Power(x) >= Square(s) && Power(y) <= Square(t) && s >= t >= 0.0
    ensures Power(Sub(x, y)) >= Square(s - t)
  {
    hide Power, Square, Sub, Add, Cross;
    var z, u := Sub(x, y), s - t;
    AddBack(x, y);
    PowerOfSum(z, y);
    SquareSum(u, t);
    assert s == u + t;
    if Power(z) < Square(u) { CrossTerm(z, y, u, t); }
  }

  // ---- dominance is inherited ----

  lemma RatioFacts(a: seq<Row>, n: nat, k: nat, j: nat)
    requires SquareMatrix(a, n) && k < n && j < n && Bound(a, n, k, k, k) > 0.0 && Bound(a, n, k, k, j) >= 0.0
    ensures Ratio(a, n, k, j) >= 0.0 && Ratio(a, n, k, j) * Bound(a, n, k, k, k) == Bound(a, n, k, k, j)
  {
    hide Bound;
  }

  lemma NextBound(a: seq<Row>, n: nat, k: nat, i: nat, j: nat)
    requires SquareMatrix(a, n) && k < n && i < n && j < n
    ensures Bound(a, n, k + 1, i, j) == Moved(Bound(a, n, k, i, j), Bound(a, n, k, i, k), Ratio(a, n, k, j), i == j)
  {
    hide Ratio, Moved;
  }

  lemma {:induction false} OffSumBounds(a: seq<Row>, n: nat, k: nat, j: nat, lo: nat)
    requires SquareMatrix(a, n) && k <= n && j < n && lo <= n
    requires forall i: nat :: lo <= i < n && i != j ==> Bound(a, n, k, i, j) >= 0.0
    ensures OffSum(a, n, k, j, lo) >= 0.0
    ensures forall i: nat :: lo <= i < n && i != j ==> Bound(a, n, k, i, j) <= OffSum(a, n, k, j, lo)
    decreases n - lo
  {
    hide Bound;
    if lo < n { OffSumBounds(a, n, k, j, lo + 1); }
  }

  /** Eliminating column k adds to the rest of column j at most what row k held there. */
  lemma {:induction false} OffSumGrows(a: seq<Row>, n: nat, k: nat, j: nat, lo: nat)
    requires SquareMatrix(a, n) && k < lo <= n && k < j < n
    ensures OffSum(a, n, k + 1, j, lo)
         == OffSum(a, n, k, j, lo) + Product(Ratio(a, n, k, j), OffSum(a, n, k, k, lo) - (if lo <= j then Bound(a, n, k, j, k) else 0.0))
    decreases n - lo
  {
    hide Ratio, Bound, Product, Moved;
    var t := Ratio(a, n, k, j);
    if lo == n {
      ProductOfSum(t, 0.0, 0.0, 0.0);
    } else {
      OffSumGrows(a, n, k, j, lo + 1);
      NextBound(a, n, k, lo, j);
      var rest := OffSum(a, n, k, k, lo + 1) - (if lo + 1 <= j then Bound(a, n, k, j, k) else 0.0);
      ProductOfSum(t, Bound(a, n, k, lo, k), rest, Bound(a, n, k, lo, j));
      assert lo == j ==> OffSum(a, n, k, k, lo) - Bound(a, n, k, j, k) == rest;
    }
  }

  lemma ProductOfSum(t: real, p: real, rest: real, s: real)
    ensures Product(t, p + rest) == Product(t, p) + Product(t, rest)
    ensures Moved(s, p, t, false) == s + Product(t, p)
    ensures Product(t, 0.0) == 0.0
  {
    Distribute(t, p, rest);
  }

  lemma PivotBound(a: seq<Row>, n: nat, k: nat)
    requires SquareMatrix(a, n) && k < n && DominantFrom(a, n, k)
    ensures Bound(a, n, k, k, k) >= OffSum(a, n, k, k, k) + MARGIN && OffSum(a, n, k, k, k) >= 0.0
    ensures OffSum(a, n, k, k, k) == OffSum(a, n, k, k, k + 1)
    ensures forall i: nat :: k < i < n ==> 0.0 <= Bound(a, n, k, i, k) <= OffSum(a, n, k, k, k)
  {
    hide Bound;
    assert DominantColumn(a, n, k, k);
    OffSumBounds(a, n, k, k, k);
  }

  lemma Column(a: seq<Row>, n: nat, k: nat, j: nat)
    requires SquareMatrix(a, n) && k <= j < n && DominantFrom(a, n, k)
    ensures forall i: nat :: k <= i < n ==> Bound(a, n, k, i, j) >= 0.0
    ensures Bound(a, n, k, j, j) >= OffSum(a, n, k, j, k) + MARGIN
  {
    assert DominantColumn(a, n, k, j);
  }

  lemma DiagonalIsInherited(a: seq<Row>, n: nat, k: nat, j: nat)
    requires SquareMatrix(a, n) && k < j < n && DominantFrom(a, n, k)
    ensures Bound(a, n, k + 1, j, j) >= OffSum(a, n, k + 1, j, k + 1) + MARGIN
  {
    assert OffSum(a, n, k, j, k) == Bound(a, n, k, k, j) + OffSum(a, n, k, j, k + 1);
    hide Bound, OffSum, Ratio, DominantFrom, Moved, Product;
    PivotBound(a, n, k);
    Column(a, n, k, j);
    RatioFacts(a, n, k, j);
    OffSumGrows(a, n, k, j, k + 1);
    NextBound(a, n, k, j, j);
    InheritedArithmetic(Ratio(a, n, k, j), Bound(a, n, k, k, k), Bound(a, n, k, k, j), OffSum(a, n, k, k, k + 1),
      Bound(a, n, k, j, k), Bound(a, n, k, j, j), OffSum(a, n, k, j, k + 1));
  }

  lemma InheritedArithmetic(t: real, d: real, q: real, others: real, p: real, b: real, rest: real)
    requires t >= 0.0 && t * d == q && others <= d && b >= q + rest + MARGIN
    ensures Moved(b, p, t, true) >= rest + Product(t, others - p) + MARGIN
  {
    Distribute(t, others, p);
    TimesOrder(t, others, d);
  }

  lemma OffDiagonalIsInherited(a: seq<Row>, n: nat, k: nat, i: nat, j: nat)
    requires SquareMatrix(a, n) && k < i < n && k < j < n && i != j && DominantFrom(a, n, k)
    ensures Bound(a, n, k + 1, i, j) >= 0.0
  {
    PivotBound(a, n, k);
    Column(a, n, k, j);
    Column(a, n, k, k);
    RatioFacts(a, n, k, j);
    NextBound(a, n, k, i, j);
    ProductNonNegative(Bound(a, n, k, i, k), Ratio(a, n, k, j));
  }

  /** The trailing block inherits dominance, with the same margin. */
  lemma DominanceIsInherited(a: seq<Row>, n: nat, k: nat)
    requires SquareMatrix(a, n) && k < n && DominantFrom(a, n, k)
    ensures DominantFrom(a, n, k + 1)
  {
    hide Bound, OffSum, DominantFrom;
    var next := k + 1;
    forall j: nat | k < j < n ensures DominantColumn(a, n, next, j) {
      DiagonalIsInherited(a, n, k, j);
      forall i: nat | k < i < n && i != j ensures Bound(a, n, next, i, j) >= 0.0 { OffDiagonalIsInherited(a, n, k, i, j); }
      OffSumBounds(a, n, next, j, next);
    }
    AllColumns(a, n, next);
  }

  lemma AllColumns(a: seq<Row>, n: nat, k: nat)
    requires SquareMatrix(a, n) && k <= n && forall j: nat :: k <= j < n ==> DominantColumn(a, n, k, j)
    ensures DominantFrom(a, n, k)
  {
  }

  lemma {:induction false} SizesAreBounds(a: seq<Row>, n: nat, j: nat, lo: nat)
    requires SquareMatrix(a, n) && j < n && lo <= n
    ensures OffSum(a, n, 0, j, lo) == OffSizes(a, n, j, lo)
    decreases n - lo
  {
    if lo < n { SizesAreBounds(a, n, j, lo + 1); }
  }

  lemma StartsDominant(a: seq<Row>, n: nat)
    requires SquareMatrix(a, n) && Dominant(a, n)
    ensures DominantFrom(a, n, 0)
  {
    forall j: nat | j < n ensures DominantColumn(a, n, 0, j) { SizesAreBounds(a, n, j, 0); }
  }

  // ---- one column of the elimination ----

  /** Without a swap or a guard, one entry below and right of the pivot. */
  lemma NextEntry(m: seq<Row>, n: nat, i: nat, r: nat, c: nat)
    requires IsMatrix(m, n) && i < r < n && c < 2 * n && Power(m[i][i]) != 0.0
    requires BestRow(m, n, i, n) == i && !IsTiny(m[i][i])
    ensures NextColumn(m, n, i)[r][c] == Sub(m[r][c], Mul(m[r][i], Mul(m[i][c], Reciprocal(m[i][i]))))
  {
    hide Mul, Sub, Power, Reciprocal;
    assert Swapped(m, n, i) == m;
    assert Guarded(m, n, i) == m;
    var s := Scaled(m, n, i);
    ClearedRow(s, n, i, n, r);
    assert s[r] == m[r] && s[i] == ScaleRow(Reciprocal(m[i][i]), m[i]);
  }

  lemma SmallerInColumn(m: seq<Row>, a: seq<Row>, n: nat, k: nat, r: nat)
    requires IsMatrix(m, n) && SquareMatrix(a, n) && k < r < n && DominantFrom(a, n, k) && Bounded(m, a, n, k)
    ensures Power(m[r][k]) < Power(m[k][k])
  {
    PivotBound(a, n, k);
    var p, d := Bound(a, n, k, r, k), Bound(a, n, k, k, k);
    assert EntryBounded(m[r][k], p, false) && EntryBounded(m[k][k], d, true);
    hide DominantFrom, Bounded, Power, Square, OffSum, Bound;
    SquareOrder(d, p);
  }

  /** The largest entry of the column is already on the diagonal, and not tiny. */
  lemma DominantPivot(m: seq<Row>, a: seq<Row>, n: nat, k: nat)
    requires IsMatrix(m, n) && SquareMatrix(a, n) && k < n && DominantFrom(a, n, k) && Bounded(m, a, n, k)
    ensures BestRow(m, n, k, n) == k && !IsTiny(m[k][k]) && Power(m[k][k]) != 0.0
  {
    PivotBound(a, n, k);
    var d := Bound(a, n, k, k, k);
    assert EntryBounded(m[k][k], d, true);
    hide Power, Square, Bound, OffSum;
    forall r: nat | k < r < n ensures Power(m[r][k]) < Power(m[k][k]) { SmallerInColumn(m, a, n, k, r); }
    SquareOrder(MARGIN, d);
    MarginSquared();
  }

  lemma MarginSquared()
    ensures Square(MARGIN) == TINY_POWER
  {
  }

  /** |m_rk m_kc / m_kk| <= b_rk b_kc / b_kk. */
  lemma QuotientBound(x: Complex, y: Complex, z: Complex, p: real, q: real, d: real, t: real)
    requires Power(x) <= Square(p) && Power(y) <= Square(q) && Power(z) >= Square(d) && d > 0.0 && Power(z) != 0.0
    requires t * d == q && p >= 0.0 && t >= 0.0
    ensures Power(Mul(x, Mul(y, Reciprocal(z)))) <= Square(p * t)
  {
    hide Mul, Power, Reciprocal;
    var a, b, r, e := Power(x), Power(y), Power(Reciprocal(z)), Power(z);
    PowerMul(x, Mul(y, Reciprocal(z)));
    PowerMul(y, Reciprocal(z));
    ReciprocalPower(z);
    QuotientArithmetic(a, b, r, e, p, q, d, t);
  }

  lemma ReciprocalPower(z: Complex)
    requires Power(z) != 0.0
    ensures Power(Reciprocal(z)) * Power(z) == 1.0
  {
    hide Mul, Power, Reciprocal;
    MulReciprocal(z);
    PowerMul(z, Reciprocal(z));
    PowerOfOne();
  }

  lemma PowerOfOne()
    ensures Power(ONE) == 1.0
  {
  }

  lemma QuotientArithmetic(a: real, b: real, r: real, e: real, p: real, q: real, d: real, t: real)
    requires 0.0 <= a <= Square(p) && 0.0 <= b <= Square(q) && e >= Square(d) && d > 0.0
    requires r >= 0.0 && r * e == 1.0 && t * d == q && p >= 0.0 && t >= 0.0
    ensures a * (b * r) <= Square(p * t)
  {
    var tt, dd := Square(t), Square(d);
    assert Square(q) == tt * dd;
    TimesOrder(r, dd, e);
    TimesOrder(r, b, tt * dd);
    assert r * (tt * dd) == tt * (r * dd);
    TimesOrder(tt, r * dd, 1.0);
    assert b * r <= tt;
    ProductNonNegative(b, r);
    TimesOrder(b * r, a, Square(p));
    TimesOrder(Square(p), b * r, tt);
    assert Square(p) * tt == Square(p * t);
  }

  lemma TimesOrder(k: real, x: real, y: real)
    requires k >= 0.0 && x <= y
    ensures k * x <= k * y
  {
    Distribute(k, y, x);
    ProductNonNegative(k, y - x);
  }

  lemma EntryIsInherited(x: Complex, y: Complex, s: real, u: real, below: bool)
    requires EntryBounded(x, s, below) && Power(y) <= Square(u) && u >= 0.0 && s >= 0.0
    requires below ==> s >= u
    ensures EntryBounded(Sub(x, y), if below then s - u else s + u, below)
  {
    hide Power, Square, Sub;
    if below { DifferenceAtLeast(x, y, s, u); } else { DifferenceAtMost(x, y, s, u); }
  }

  /** The same for one entry x, its row's factor v, its column's w and the pivot z. */
  lemma CombineCell(x: Complex, v: Complex, w: Complex, z: Complex, s: real, p: real, q: real, d: real, t: real, next: real, below: bool)
    requires EntryBounded(x, s, below) && EntryBounded(v, p, false) && EntryBounded(w, q, false) && EntryBounded(z, d, true)
    requires s >= 0.0 && p >= 0.0 && d > 0.0 && t >= 0.0 && t * d == q && Power(z) != 0.0
    requires next == Moved(s, p, t, below) && next >= 0.0
    ensures EntryBounded(Sub(x, Mul(v, Mul(w, Reciprocal(z)))), next, below)
  {
    hide Power, Square, Mul, Sub, Reciprocal;
    QuotientBound(v, w, z, p, q, d, t);
    ProductNonNegative(p, t);
    EntryIsInherited(x, Mul(v, Mul(w, Reciprocal(z))), s, p * t, below);
  }

  lemma CellIsInherited(m: seq<Row>, a: seq<Row>, n: nat, k: nat, i: nat, j: nat)
    requires IsMatrix(m, n) && SquareMatrix(a, n) && k < i < n && k < j < n && DominantFrom(a, n, k) && Bounded(m, a, n, k)
    requires BestRow(m, n, k, n) == k && !IsTiny(m[k][k]) && Power(m[k][k]) != 0.0
    ensures EntryBounded(NextColumn(m, n, k)[i][j], Bound(a, n, k + 1, i, j), i == j)
  {
    var s, p, q, d := Bound(a, n, k, i, j), Bound(a, n, k, i, k), Bound(a, n, k, k, j), Bound(a, n, k, k, k);
    assert EntryBounded(m[i][j], s, i == j) && EntryBounded(m[i][k], p, false) && EntryBounded(m[k][j], q, false) && EntryBounded(m[k][k], d, true);
    hide Bounded, EntryBounded, DominantFrom, Bound, Ratio, OffSum, NextColumn, BestRow, IsTiny, Power, Mul, Sub, Reciprocal;
    DominanceIsInherited(a, n, k);
    Column(a, n, k + 1, j); Column(a, n, k, j); Column(a, n, k, k); PivotBound(a, n, k);
    RatioFacts(a, n, k, j);
    NextEntry(m, n, k, i, j);
    CellStep(m, a, n, k, i, j);
  }

  lemma CellStep(m: seq<Row>, a: seq<Row>, n: nat, k: nat, i: nat, j: nat)
    requires IsMatrix(m, n) && SquareMatrix(a, n) && k < i < n && k < j < n && Power(m[k][k]) != 0.0
    requires Bound(a, n, k, i, j) >= 0.0 && Bound(a, n, k, i, k) >= 0.0 && Bound(a, n, k, k, k) > 0.0
    requires Ratio(a, n, k, j) >= 0.0 && Ratio(a, n, k, j) * Bound(a, n, k, k, k) == Bound(a, n, k, k, j)
    requires Bound(a, n, k + 1, i, j) >= 0.0
    requires EntryBounded(m[i][j], Bound(a, n, k, i, j), i == j) && EntryBounded(m[i][k], Bound(a, n, k, i, k), false)
    requires EntryBounded(m[k][j], Bound(a, n, k, k, j), false) && EntryBounded(m[k][k], Bound(a, n, k, k, k), true)
    ensures EntryBounded(Sub(m[i][j], Mul(m[i][k], Mul(m[k][j], Reciprocal(m[k][k])))), Bound(a, n, k + 1, i, j), i == j)
  {
    hide EntryBounded, Bound, Ratio, Power, Mul, Sub, Reciprocal;
    NextBound(a, n, k, i, j);
    CombineCell(m[i][j], m[i][k], m[k][j], m[k][k], Bound(a, n, k, i, j), Bound(a, n, k, i, k), Bound(a, n, k, k, j), Bound(a, n, k, k, k),
      Ratio(a, n, k, j), Bound(a, n, k + 1, i, j), i == j);
  }

  lemma BoundsAreInherited(m: seq<Row>, a: seq<Row>, n: nat, k: nat)
    requires IsMatrix(m, n) && SquareMatrix(a, n) && k < n && DominantFrom(a, n, k) && Bounded(m, a, n, k)
    ensures Bounded(NextColumn(m, n, k), a, n, k + 1)
  {
    DominantPivot(m, a, n, k);
    hide Power, NextColumn, Bound, EntryBounded, IsTiny, BestRow, DominantFrom;
    var next := k + 1;
    forall i: nat, j: nat | k < i < n && k < j < n
      ensures EntryBounded(NextColumn(m, n, k)[i][j], Bound(a, n, next, i, j), i == j)
    {
      CellIsInherited(m, a, n, k, i, j);
    }
  }

  lemma {:induction false} StaysDominant(a: seq<Row>, n: nat, k: nat)
    requires SquareMatrix(a, n) && Dominant(a, n) && k <= n
    ensures DominantFrom(a, n, k) && Bounded(Before(a, n, k), a, n, k)
  {
    hide NextColumn, DominantFrom, Bounded, Dominant;
    if k == 0 {
      StartsDominant(a, n);
      EntriesAreBounded(a, n);
    } else {
      StaysDominant(a, n, k - 1);
      DominanceIsInherited(a, n, k - 1);
      BoundsAreInherited(Before(a, n, k - 1), a, n, k - 1);
    }
  }

  lemma EntriesAreBounded(a: seq<Row>, n: nat)
    requires SquareMatrix(a, n)
    ensures Bounded(Before(a, n, 0), a, n, 0)
  {
    hide Power, Square;
    forall i: nat, j: nat | i < n && j < n ensures EntryBounded(Before(a, n, 0)[i][j], Bound(a, n, 0, i, j), i == j) {
      SizeBounds(a[i][j]);
    }
  }

  /** A dominant matrix never takes the guard, so the routine inverts it. */
  lemma DominantNeedsNoGuard(a: seq<Row>, n: nat)
    requires SquareMatrix(a, n) && Dominant(a, n)
    ensures !TakesGuard(a, n) && IsLeftInverse(Inverse(a, n), a, n) && SolvesAll(Inverse(a, n), a, n)
  {
    hide Dominant, DominantFrom, Bounded, Before, Inverse, IsLeftInverse, SolvesAll, IsTiny, Power;
    forall i: nat | i < n ensures !IsTiny(Pivot(a, n, i)) {
      StaysDominant(a, n, i);
      DominantPivot(Before(a, n, i), a, n, i);
    }
    InvertsUnlessGuarded(a, n);
  }

  // ---- the equalizer's matrix ----

  /** The loaded power exceeds twice the sizes of the other four correlations. */
  predicate OutweighsItsLags(r: seq<Complex>)
    requires |r| == LsEqualizer.TAPS
  {
    Abs(r[0].re + LsEqualizer.LOADING.re) >= 2.0 * (Size(r[1]) + Size(r[2]) + Size(r[3]) + Size(r[4])) + MARGIN
  }

  /** On such a stride the equalizer's weights are the one solution of its normal equations. */
  lemma OutweighedLagsNeedNoGuard(x: seq<Complex>)
    requires OutweighsItsLags(LsEqualizer.AutoCorrelations(x))
    ensures !TakesGuard(LsEqualizer.NormalMatrix(x), LsEqualizer.TAPS)
  {
    var r, n := LsEqualizer.AutoCorrelations(x), LsEqualizer.TAPS;
    var a: seq<Row> := LsEqualizer.Toeplitz(r);
    hide LsEqualizer.AutoCorrelations, LsEqualizer.Toeplitz, TakesGuard, Dominant;
    forall j: nat | j < n ensures Abs(a[j][j].re) >= OffSizes(a, n, j, 0) + MARGIN { LagSizes(r, j); }
    EveryColumn(a, n);
    DominantNeedsNoGuard(a, n);
  }

  lemma EveryColumn(a: seq<Row>, n: nat)
    requires SquareMatrix(a, n) && forall j: nat :: j < n ==> Abs(a[j][j].re) >= OffSizes(a, n, j, 0) + MARGIN
    ensures Dominant(a, n)
  {
  }

  /** A column of the Toeplitz matrix holds every other correlation at most twice. */
  lemma LagSizes(r: seq<Complex>, j: nat)
    requires |r| == LsEqualizer.TAPS && j < LsEqualizer.TAPS
    ensures OffSizes(LsEqualizer.Toeplitz(r), LsEqualizer.TAPS, j, 0) <= 2.0 * (Size(r[1]) + Size(r[2]) + Size(r[3]) + Size(r[4]))
  {
    var a, n := LsEqualizer.Toeplitz(r), LsEqualizer.TAPS;
    forall i: nat | i < n && i != j ensures Size(a[i][j]) == Size(r[if i < j then j - i else i - j]) {
      SizeOfConjugate(r[if i < j then j - i else i - j]);
    }
    hide Size, LsEqualizer.Toeplitz;
    OffSizesUnfold(a, j);
  }

  lemma SizeOfConjugate(z: Complex)
    ensures Size(Conj(z)) == Size(z)
  {
  }

  lemma OffSizesUnfold(a: seq<Row>, j: nat)
    requires SquareMatrix(a, 5) && j < 5
    ensures OffSizes(a, 5, j, 0) == (if j == 0 then 0.0 else Size(a[0][j])) + (if j == 1 then 0.0 else Size(a[1][j]))
         + (if j == 2 then 0.0 else Size(a[2][j])) + (if j == 3 then 0.0 else Size(a[3][j])) + (if j == 4 then 0.0 else Size(a[4][j]))
  {
    hide Size;
    assert OffSizes(a, 5, j, 5) == 0.0;
    assert OffSizes(a, 5, j, 3) == (if j == 3 then 0.0 else Size(a[3][j])) + (if j == 4 then 0.0 else Size(a[4][j]));
  }

  /** A five-sample stride of last sample v whose other samples are v + 1e-6 / v. */
  function FlatStride(v: real): (x: seq<Complex>)
    requires v != 0.0
    ensures |x| == LsEqualizer.TAPS
  {
    var c := C(v + 0.000001 / v, 0.0);
    [c, c, c, c, C(v, 0.0)]
  }

  /** Loading makes every entry of its matrix the same, so the guard is taken at every amplitude. */
  lemma FlatStrideTakesGuard(v: real)
    requires v != 0.0
    ensures TakesGuard(LsEqualizer.NormalMatrix(FlatStride(v)), LsEqualizer.TAPS)
  {
    var x, n := FlatStride(v), LsEqualizer.TAPS;
    var c := C(v * v + 0.000001, 0.0);
    var r := LsEqualizer.AutoCorrelations(x);
    assert v * (v + 0.000001 / v) == v * v + 0.000001;
    forall k | 0 <= k < n ensures r[k] == if k == 0 then C(v * v, 0.0) else c { FlatCorrelation(v, k); }
    var a := LsEqualizer.NormalMatrix(x);
    forall i, j | 0 <= i < n && 0 <= j < n ensures a[i][j] == c { }
    var kernel := [ONE, C(-1.0, 0.0), ZERO, ZERO, ZERO];
    hide TakesGuard, LsEqualizer.NormalMatrix;
    forall i | 0 <= i < n ensures Sum(a[i], kernel, n) == Nothing(n)[i] { FlatRow(a[i], c, kernel); }
    assert kernel[0] != Nothing(n)[0];
    SingularTakesGuard(a, n, kernel);
  }

  lemma FlatCorrelation(v: real, k: nat)
    requires v != 0.0 && k < LsEqualizer.TAPS
    ensures var x: seq<Complex> := FlatStride(v);
      LsEqualizer.AutoCorrelation(x, k, LsEqualizer.ValidPositions(x)) == C(v * FlatStride(v)[4 - k].re, 0.0)
  {
    var x := FlatStride(v);
    assert LsEqualizer.AutoCorrelation(x, k, 0) == ZERO;
    assert LsEqualizer.AutoCorrelation(x, k, 1) == Add(ZERO, Mul(x[4], Conj(x[4 - k])));
  }

  lemma FlatRow(row: Row, c: Complex, kernel: seq<Complex>)
    requires |row| == 5 && forall j :: 0 <= j < 5 ==> row[j] == c
    requires kernel == [ONE, C(-1.0, 0.0), ZERO, ZERO, ZERO]
    ensures Sum(row, kernel, 5) == ZERO
  {
    MulZero(c);
    assert Sum(row, kernel, 1) == Add(ZERO, Mul(c, ONE));
    assert Sum(row, kernel, 2) == ZERO;
    assert Sum(row, kernel, 3) == ZERO;
    assert Sum(row, kernel, 4) == ZERO;
  }
}
