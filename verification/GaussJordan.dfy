/** Row reduction over exact complex numbers: what a row operation does to the defect
    "left block minus right block times A". */
module RowReduction {
  import opened ComplexVectors

  type Row = seq<Complex>

  /** Entry c of (right half of row) * A, summed over the first k terms. */
  function Combine(row: Row, n: nat, a: seq<Row>, c: nat, k: nat): Complex
    requires |row| == 2 * n && |a| == n && k <= n && c < n
    requires forall r :: 0 <= r < n ==> |a[r]| == n
  {
    if k == 0 then ZERO else Add(Combine(row, n, a, c, k - 1), Mul(row[n + k - 1], a[k - 1][c]))
  }

  predicate SquareMatrix(a: seq<Row>, n: nat) {
    |a| == n && forall r :: 0 <= r < n ==> |a[r]| == n
  }

  function Defect(row: Row, n: nat, a: seq<Row>, c: nat): Complex
    requires |row| == 2 * n && SquareMatrix(a, n) && c < n
  {
    Sub(row[c], Combine(row, n, a, c, n))
  }

  function ScaleRow(f: Complex, row: Row): Row {
    seq(|row|, j requires 0 <= j < |row| => Mul(row[j], f))
  }

  function SubtractRow(row: Row, f: Complex, pivot: Row): Row
    requires |row| == |pivot|
  {
    seq(|row|, j requires 0 <= j < |row| => Sub(row[j], Mul(f, pivot[j])))
  }

  lemma {:induction false} CombineScale(f: Complex, row: Row, n: nat, a: seq<Row>, c: nat, k: nat)
    requires |row| == 2 * n && SquareMatrix(a, n) && k <= n && c < n
    ensures Combine(ScaleRow(f, row), n, a, c, k) == Mul(f, Combine(row, n, a, c, k))
  {
    hide Mul, Add;
    if k == 0 {
      MulZero(f);
    } else {
      CombineScale(f, row, n, a, c, k - 1);
      var x, y := row[n + k - 1], a[k - 1][c];
      MulCommutes(x, f);
      MulAssoc(f, x, y);
      MulAdd(f, Combine(row, n, a, c, k - 1), Mul(x, y));
    }
  }

  lemma SubAddExchange(p: Complex, q: Complex, x: Complex, y: Complex)
    ensures Add(Sub(p, x), Sub(q, y)) == Sub(Add(p, q), Add(x, y))
  {
  }

  lemma MulSubLeft(x: Complex, z: Complex, y: Complex)
    ensures Mul(Sub(x, z), y) == Sub(Mul(x, y), Mul(z, y))
  {
    hide Mul, Sub;
    MulCommutes(Sub(x, z), y); MulCommutes(x, y); MulCommutes(z, y);
    MulSub(y, x, z);
  }

  lemma {:induction false} CombineSubtract(row: Row, f: Complex, pivot: Row, n: nat, a: seq<Row>, c: nat, k: nat)
    requires |row| == |pivot| == 2 * n && SquareMatrix(a, n) && k <= n && c < n
    ensures Combine(SubtractRow(row, f, pivot), n, a, c, k)
         == Sub(Combine(row, n, a, c, k), Mul(f, Combine(pivot, n, a, c, k)))
  {
    hide Mul, Add, Sub;
    if k == 0 {
      MulZero(f);
      SubZero(ZERO);
    } else {
      CombineSubtract(row, f, pivot, n, a, c, k - 1);
      var x, z, y := row[n + k - 1], pivot[n + k - 1], a[k - 1][c];
      MulSubLeft(x, Mul(f, z), y);
      MulAssoc(f, z, y);
      var p, q := Combine(row, n, a, c, k - 1), Combine(pivot, n, a, c, k - 1);
      SubAddExchange(p, Mul(x, y), Mul(f, q), Mul(f, Mul(z, y)));
      MulAdd(f, q, Mul(z, y));
    }
  }

  lemma SubZero(x: Complex)
    ensures Sub(x, ZERO) == x
  {
  }

  lemma SubSelf(x: Complex)
    ensures Sub(x, x) == ZERO
  {
  }

  lemma SubIsZero(x: Complex, y: Complex)
    ensures Sub(x, y) == ZERO <==> x == y
  {
  }

  lemma DefectScale(f: Complex, row: Row, n: nat, a: seq<Row>, c: nat)
    requires |row| == 2 * n && SquareMatrix(a, n) && c < n
    ensures Defect(ScaleRow(f, row), n, a, c) == Mul(f, Defect(row, n, a, c))
  {
    hide Mul, Sub;
    CombineScale(f, row, n, a, c, n);
    MulCommutes(row[c], f);
    MulSub(f, row[c], Combine(row, n, a, c, n));
  }

  lemma SubSubExchange(p: Complex, q: Complex, x: Complex, y: Complex)
    ensures Sub(Sub(p, x), Sub(q, y)) == Sub(Sub(p, q), Sub(x, y))
  {
  }

  lemma DefectSubtract(row: Row, f: Complex, pivot: Row, n: nat, a: seq<Row>, c: nat)
    requires |row| == |pivot| == 2 * n && SquareMatrix(a, n) && c < n
    ensures Defect(SubtractRow(row, f, pivot), n, a, c) == Sub(Defect(row, n, a, c), Mul(f, Defect(pivot, n, a, c)))
  {
    hide Mul, Sub;
    CombineSubtract(row, f, pivot, n, a, c, n);
    var p, q := Combine(row, n, a, c, n), Combine(pivot, n, a, c, n);
    SubSubExchange(row[c], p, Mul(f, pivot[c]), Mul(f, q));
    MulSub(f, pivot[c], q);
  }

  lemma {:induction false} CombineIgnoresLeft(row: Row, row': Row, n: nat, a: seq<Row>, c: nat, k: nat)
    requires |row| == |row'| == 2 * n && SquareMatrix(a, n) && k <= n && c < n
    requires forall j :: n <= j < 2 * n ==> row[j] == row'[j]
    ensures Combine(row, n, a, c, k) == Combine(row', n, a, c, k)
  {
    if k > 0 { CombineIgnoresLeft(row, row', n, a, c, k - 1); }
  }

  // ---- reciprocals ----

  function Reciprocal(z: Complex): Complex
    requires Power(z) != 0.0
  {
    Scale(1.0 / Power(z), Conj(z))
  }

  lemma MulReciprocal(z: Complex)
    requires Power(z) != 0.0
    ensures Mul(z, Reciprocal(z)) == ONE
  {
    hide Mul, Power;
    MulScale(1.0 / Power(z), z, Conj(z));
    MulConj(z);
    assert (1.0 / Power(z)) * Power(z) == 1.0;
  }

  lemma ReciprocalNonZero(z: Complex)
    requires Power(z) != 0.0
    ensures Reciprocal(z) != ZERO
  {
    hide Reciprocal;
    MulReciprocal(z);
    MulZero(z);
  }

  lemma ProductNonZero(f: Complex, x: Complex)
    requires f != ZERO && x != ZERO
    ensures Mul(f, x) != ZERO
  {
    hide Mul, Power;
    PowerMul(f, x);
    PowerPositive(f);
    PowerPositive(x);
    assert Power(f) * Power(x) > 0.0;
    assert Power(ZERO) == 0.0 by { PowerOfZero(); }
  }

  lemma PowerOfZero()
    ensures Power(ZERO) == 0.0
  {
  }

  lemma PowerPositive(z: Complex)
    ensures Power(z) == 0.0 <==> z == ZERO
  {
    SquarePositive(z.re);
    SquarePositive(z.im);
  }
}

/** Linear systems a w == p, and the reversibility of row operations. */
module LinearSystems {
  import opened ComplexVectors
  import opened RowReduction

  /** Sum of the first k products u[c] * w[c]. */
  function Sum(u: seq<Complex>, w: seq<Complex>, k: nat): Complex
    requires k <= |u| && k <= |w|
  {
    if k == 0 then ZERO else Add(Sum(u, w, k - 1), Mul(u[k - 1], w[k - 1]))
  }

  /** a w == p. */
  predicate Solves(a: seq<Row>, n: nat, w: seq<Complex>, p: seq<Complex>)
    requires SquareMatrix(a, n) && |p| == n
  {
    |w| == n && forall r :: 0 <= r < n ==> Sum(a[r], w, n) == p[r]
  }

  lemma MulOne(x: Complex)
    ensures Mul(x, ONE) == x
  {
  }

  lemma AddExchange(p: Complex, q: Complex, x: Complex, y: Complex)
    ensures Add(Add(p, x), Add(q, y)) == Add(Add(p, q), Add(x, y))
  {
  }

  lemma MulAddLeft(x: Complex, z: Complex, y: Complex)
    ensures Mul(Add(x, z), y) == Add(Mul(x, y), Mul(z, y))
  {
    hide Mul, Add;
    MulCommutes(Add(x, z), y); MulCommutes(x, y); MulCommutes(z, y);
    MulAdd(y, x, z);
  }

  /** (q + f u) . w == q . w + f (u . w). */
  lemma {:induction false} SumIsLinear(q': seq<Complex>, q: seq<Complex>, f: Complex, u: seq<Complex>, w: seq<Complex>, k: nat)
    requires |q'| == |q| == |u| == |w| && k <= |w|
    requires forall c :: 0 <= c < |w| ==> q'[c] == Add(q[c], Mul(f, u[c]))
    ensures Sum(q', w, k) == Add(Sum(q, w, k), Mul(f, Sum(u, w, k)))
  {
    hide Mul, Add;
    if k == 0 {
      MulZero(f);
      AddZero(ZERO);
    } else {
      SumIsLinear(q', q, f, u, w, k - 1);
      var x, z, y := q[k - 1], u[k - 1], w[k - 1];
      MulAddLeft(x, Mul(f, z), y);
      MulAssoc(f, z, y);
      AddExchange(Sum(q, w, k - 1), Mul(x, y), Mul(f, Sum(u, w, k - 1)), Mul(f, Mul(z, y)));
      AddExchange(Sum(q, w, k - 1), Mul(f, Sum(u, w, k - 1)), Mul(x, y), Mul(f, Mul(z, y)));
      MulAdd(f, Sum(u, w, k - 1), Mul(z, y));
    }
  }

  lemma AddZero(x: Complex)
    ensures Add(x, ZERO) == x
    ensures Add(ZERO, x) == x
  {
  }

  lemma {:induction false} SumOfZeros(u: seq<Complex>, w: seq<Complex>, k: nat)
    requires |u| == |w| && k <= |w| && forall c :: 0 <= c < k ==> u[c] == ZERO
    ensures Sum(u, w, k) == ZERO
  {
    hide Mul, Add;
    if k > 0 {
      SumOfZeros(u, w, k - 1);
      MulZero(w[k - 1]); MulCommutes(w[k - 1], ZERO);
      AddZero(ZERO);
    }
  }

  lemma {:induction false} SumOfUnit(u: seq<Complex>, w: seq<Complex>, r: nat, k: nat)
    requires |u| == |w| && r < k <= |w| && forall c :: 0 <= c < |w| ==> u[c] == if r == c then ONE else ZERO
    ensures Sum(u, w, k) == w[r]
  {
    hide Mul, Add;
    var y := w[k - 1];
    MulOne(y); MulCommutes(y, ONE);
    MulZero(y); MulCommutes(y, ZERO);
    if r == k - 1 {
      SumOfZeros(u, w, k - 1);
    } else {
      SumOfUnit(u, w, r, k - 1);
    }
    AddZero(if r == k - 1 then y else w[r]);
  }

  /** How far (w, p) is from satisfying left . w == right . p for one augmented row. */
  function Residual(row: Row, n: nat, w: seq<Complex>, p: seq<Complex>): Complex
    requires |row| == 2 * n && |w| == |p| == n
  {
    Sub(Sum(row[..n], w, n), Sum(row[n..], p, n))
  }

  /** Whatever satisfies the rows of m solves the system of a. */
  ghost predicate Reversible(m: seq<Row>, n: nat, a: seq<Row>)
    requires |m| == n && (forall r :: 0 <= r < n ==> |m[r]| == 2 * n) && SquareMatrix(a, n)
  {
    forall w: seq<Complex>, p: seq<Complex> :: |w| == |p| == n && Holds(m, n, w, p) ==> Solves(a, n, w, p)
  }

  ghost predicate Holds(m: seq<Row>, n: nat, w: seq<Complex>, p: seq<Complex>)
    requires |m| == n && (forall r :: 0 <= r < n ==> |m[r]| == 2 * n) && |w| == |p| == n
  {
    forall r :: 0 <= r < n ==> Residual(m[r], n, w, p) == ZERO
  }

  lemma {:induction false} SumScales(u': seq<Complex>, u: seq<Complex>, f: Complex, w: seq<Complex>, k: nat)
    requires |u'| == |u| == |w| && k <= |w| && forall c :: 0 <= c < |w| ==> u'[c] == Mul(u[c], f)
    ensures Sum(u', w, k) == Mul(f, Sum(u, w, k))
  {
    hide Mul, Add;
    if k == 0 {
      MulZero(f);
    } else {
      SumScales(u', u, f, w, k - 1);
      var x, y := u[k - 1], w[k - 1];
      MulCommutes(x, f);
      MulAssoc(f, x, y);
      MulAdd(f, Sum(u, w, k - 1), Mul(x, y));
    }
  }

  lemma {:induction false} SumSubtracts(q': seq<Complex>, q: seq<Complex>, f: Complex, u: seq<Complex>, w: seq<Complex>, k: nat)
    requires |q'| == |q| == |u| == |w| && k <= |w|
    requires forall c :: 0 <= c < |w| ==> q'[c] == Sub(q[c], Mul(f, u[c]))
    ensures Sum(q', w, k) == Sub(Sum(q, w, k), Mul(f, Sum(u, w, k)))
  {
    hide Mul, Add, Sub;
    if k == 0 {
      MulZero(f);
      SubZero(ZERO);
    } else {
      SumSubtracts(q', q, f, u, w, k - 1);
      var x, z, y := q[k - 1], u[k - 1], w[k - 1];
      MulSubLeft(x, Mul(f, z), y);
      MulAssoc(f, z, y);
      SubAddExchange(Sum(q, w, k - 1), Mul(x, y), Mul(f, Sum(u, w, k - 1)), Mul(f, Mul(z, y)));
      SubAddExchange(Sum(q, w, k - 1), Mul(f, Sum(u, w, k - 1)), Mul(x, y), Mul(f, Mul(z, y)));
      MulAdd(f, Sum(u, w, k - 1), Mul(z, y));
    }
  }

  lemma ResidualScales(row: Row, f: Complex, n: nat, w: seq<Complex>, p: seq<Complex>)
    requires |row| == 2 * n && |w| == |p| == n
    ensures Residual(ScaleRow(f, row), n, w, p) == Mul(f, Residual(row, n, w, p))
  {
    hide Mul, Sub, Sum;
    var row' := ScaleRow(f, row);
    SumScales(row'[..n], row[..n], f, w, n);
    SumScales(row'[n..], row[n..], f, p, n);
    MulSub(f, Sum(row[..n], w, n), Sum(row[n..], p, n));
  }

  lemma ResidualSubtracts(row: Row, f: Complex, pivot: Row, n: nat, w: seq<Complex>, p: seq<Complex>)
    requires |row| == |pivot| == 2 * n && |w| == |p| == n
    ensures Residual(SubtractRow(row, f, pivot), n, w, p) == Sub(Residual(row, n, w, p), Mul(f, Residual(pivot, n, w, p)))
  {
    hide Mul, Sub, Sum;
    var row' := SubtractRow(row, f, pivot);
    SumSubtracts(row'[..n], row[..n], f, pivot[..n], w, n);
    SumSubtracts(row'[n..], row[n..], f, pivot[n..], p, n);
    var x, y, u, v := Sum(row[..n], w, n), Sum(row[n..], p, n), Sum(pivot[..n], w, n), Sum(pivot[n..], p, n);
    SubSubExchange(x, y, Mul(f, u), Mul(f, v));
    MulSub(f, u, v);
  }

  lemma ReversibleSwap(m: seq<Row>, n: nat, a: seq<Row>, i: nat, k: nat)
    requires |m| == n && (forall r :: 0 <= r < n ==> |m[r]| == 2 * n) && SquareMatrix(a, n) && i < n && k < n
    requires Reversible(m, n, a)
    ensures Reversible(m[i := m[k]][k := m[i]], n, a)
  {
    hide Residual, Solves;
    var m' := m[i := m[k]][k := m[i]];
    forall w: seq<Complex>, p: seq<Complex> | |w| == |p| == n && Holds(m', n, w, p) ensures Solves(a, n, w, p) {
      forall r | 0 <= r < n ensures Residual(m[r], n, w, p) == ZERO {
        var r' := if r == i then k else if r == k then i else r;
        assert m'[r'] == m[r];
      }
      assert Holds(m, n, w, p);
    }
  }

  lemma ReversibleScale(m: seq<Row>, n: nat, a: seq<Row>, i: nat, f: Complex)
    requires |m| == n && (forall r :: 0 <= r < n ==> |m[r]| == 2 * n) && SquareMatrix(a, n) && i < n && f != ZERO
    requires Reversible(m, n, a)
    ensures Reversible(m[i := ScaleRow(f, m[i])], n, a)
  {
    hide Residual, Solves, Mul;
    var m' := m[i := ScaleRow(f, m[i])];
    forall w: seq<Complex>, p: seq<Complex> | |w| == |p| == n && Holds(m', n, w, p) ensures Solves(a, n, w, p) {
      assert m'[i] == ScaleRow(f, m[i]);
      ResidualScales(m[i], f, n, w, p);
      if Residual(m[i], n, w, p) != ZERO { ProductNonZero(f, Residual(m[i], n, w, p)); }
      forall r | 0 <= r < n ensures Residual(m[r], n, w, p) == ZERO {
        assert r != i ==> m'[r] == m[r];
      }
      assert Holds(m, n, w, p);
    }
  }

  lemma ReversibleSubtract(m: seq<Row>, n: nat, a: seq<Row>, k: nat, i: nat, f: Complex)
    requires |m| == n && (forall r :: 0 <= r < n ==> |m[r]| == 2 * n) && SquareMatrix(a, n) && i < n && k < n && k != i
    requires Reversible(m, n, a)
    ensures Reversible(m[k := SubtractRow(m[k], f, m[i])], n, a)
  {
    hide Residual, Solves, Mul, Sub;
    var m' := m[k := SubtractRow(m[k], f, m[i])];
    forall w: seq<Complex>, p: seq<Complex> | |w| == |p| == n && Holds(m', n, w, p) ensures Solves(a, n, w, p) {
      assert m'[k] == SubtractRow(m[k], f, m[i]) && m'[i] == m[i];
      ResidualSubtracts(m[k], f, m[i], n, w, p);
      MulZero(f);
      SubZero(Residual(m[k], n, w, p));
      forall r | 0 <= r < n ensures Residual(m[r], n, w, p) == ZERO {
        assert r != k ==> m'[r] == m[r];
      }
      assert Holds(m, n, w, p);
    }
  }

  /** (A | I) says what a says. */
  lemma StartsReversible(m: seq<Row>, n: nat, a: seq<Row>)
    requires |m| == n && (forall r :: 0 <= r < n ==> |m[r]| == 2 * n) && SquareMatrix(a, n)
    requires forall r, j :: 0 <= r < n && 0 <= j < 2 * n ==>
               m[r][j] == if j < n then a[r][j] else if j == r + n then ONE else ZERO
    ensures Reversible(m, n, a)
  {
    hide Sum, Sub;
    forall w: seq<Complex>, p: seq<Complex> | |w| == |p| == n && Holds(m, n, w, p) ensures Solves(a, n, w, p) {
      forall r | 0 <= r < n ensures Sum(a[r], w, n) == p[r] {
        assert m[r][..n] == a[r];
        SumOfUnit(m[r][n..], p, r, n);
        assert Residual(m[r], n, w, p) == ZERO;
        SubIsZero(Sum(a[r], w, n), p[r]);
      }
    }
  }

  /** With the left block reduced to I, the right block applied to any p solves for it. */
  lemma IdentitySolves(m: seq<Row>, n: nat, a: seq<Row>, w: seq<Complex>, p: seq<Complex>)
    requires |m| == n && (forall r :: 0 <= r < n ==> |m[r]| == 2 * n) && SquareMatrix(a, n) && |w| == |p| == n
    requires Reversible(m, n, a)
    requires forall r, j :: 0 <= r < n && 0 <= j < n ==> m[r][j] == if r == j then ONE else ZERO
    requires forall r :: 0 <= r < n ==> w[r] == Sum(m[r][n..], p, n)
    ensures Solves(a, n, w, p)
  {
    hide Sum, Sub, Solves;
    forall r | 0 <= r < n ensures Residual(m[r], n, w, p) == ZERO {
      SumOfUnit(m[r][..n], w, r, n);
      SubSelf(w[r]);
    }
    assert Holds(m, n, w, p);
  }
}

/** cyclic_ls_equalizer.py, _invert_5x5_hermitian, for any size n (the source has n = 5), as a
    function of the matrix: partial pivoting, the 1e-12 guard, forward and backward elimination
    by full-width row operations; and when the result is the inverse. */
module Elimination {
  import opened ComplexVectors
  import opened RowReduction
  import opened LinearSystems

  ghost predicate IsMatrix(m: seq<Row>, n: nat) {
    |m| == n && forall r :: 0 <= r < n ==> |m[r]| == 2 * n
  }

  const TINY := C(0.000000000001, 0.0)
  const TINY_POWER := 0.000000000000000000000001

  /** abs(z) < 1e-12. */
  predicate IsTiny(z: Complex) { Power(z) < TINY_POWER }

  lemma TinyIsNonZero()
    ensures Power(TINY) == TINY_POWER
    ensures forall z :: IsTiny(z) ==> z != TINY
  {
  }

  /** The row among i .. k-1 whose entry in column i is largest, the first one among equals. */
  function BestRow(m: seq<Row>, n: nat, i: nat, k: nat): (p: nat)
    requires |m| == n && (forall r :: 0 <= r < n ==> |m[r]| == 2 * n) && i < k <= n
    ensures i <= p < k
    ensures forall r :: i <= r < k ==> Power(m[r][i]) <= Power(m[p][i])
    ensures forall r :: i <= r < p ==> Power(m[r][i]) < Power(m[p][i])
  {
    if k == i + 1 then i
    else
      var b := BestRow(m, n, i, k - 1);
      if Power(m[k - 1][i]) > Power(m[b][i]) then k - 1 else b
  }

  /** The largest remaining entry of column i is brought to row i. */
  function Swapped(m: seq<Row>, n: nat, i: nat): (m': seq<Row>)
    requires |m| == n && (forall r :: 0 <= r < n ==> |m[r]| == 2 * n) && i < n
    ensures |m'| == n && forall r :: 0 <= r < n ==> |m'[r]| == 2 * n
  {
    var p := BestRow(m, n, i, n);
    m[i := m[p]][p := m[i]]
  }

  /** A tiny pivot is replaced by 1e-12. */
  function Guarded(m: seq<Row>, n: nat, i: nat): (m': seq<Row>)
    requires |m| == n && (forall r :: 0 <= r < n ==> |m[r]| == 2 * n) && i < n
    ensures |m'| == n && forall r :: 0 <= r < n ==> |m'[r]| == 2 * n
    ensures Power(m'[i][i]) != 0.0
  {
    TinyIsNonZero();
    if IsTiny(m[i][i]) then m[i := m[i][i := TINY]] else m
  }

  function Scaled(m: seq<Row>, n: nat, i: nat): (m': seq<Row>)
    requires |m| == n && (forall r :: 0 <= r < n ==> |m[r]| == 2 * n) && i < n && Power(m[i][i]) != 0.0
    ensures |m'| == n && forall r :: 0 <= r < n ==> |m'[r]| == 2 * n
  {
    m[i := ScaleRow(Reciprocal(m[i][i]), m[i])]
  }

  /** Column i eliminated from rows i+1 .. k-1. */
  function Cleared(m: seq<Row>, n: nat, i: nat, k: nat): (m': seq<Row>)
    requires |m| == n && (forall r :: 0 <= r < n ==> |m[r]| == 2 * n) && i < k <= n
    ensures |m'| == n && forall r :: 0 <= r < n ==> |m'[r]| == 2 * n
  {
    if k == i + 1 then m
    else
      var b := Cleared(m, n, i, k - 1);
      b[k - 1 := SubtractRow(b[k - 1], b[k - 1][i], b[i])]
  }

  lemma {:induction false} ClearedRow(m: seq<Row>, n: nat, i: nat, k: nat, r: nat)
    requires IsMatrix(m, n) && i < k <= n && r < n
    ensures Cleared(m, n, i, k)[r] == if i < r < k then SubtractRow(m[r], m[r][i], m[i]) else m[r]
  {
    hide SubtractRow;
    if k > i + 1 {
      ClearedRow(m, n, i, k - 1, r);
      ClearedRow(m, n, i, k - 1, k - 1);
      ClearedRow(m, n, i, k - 1, i);
    }
  }

  function NextColumn(m: seq<Row>, n: nat, i: nat): (m': seq<Row>)
    requires |m| == n && (forall r :: 0 <= r < n ==> |m[r]| == 2 * n) && i < n
    ensures |m'| == n && forall r :: 0 <= r < n ==> |m'[r]| == 2 * n
  {
    Cleared(Scaled(Guarded(Swapped(m, n, i), n, i), n, i), n, i, n)
  }

  /** (A | I). */
  function Augmented(a: seq<Row>, n: nat): (m: seq<Row>)
    requires SquareMatrix(a, n)
    ensures |m| == n && forall r :: 0 <= r < n ==> |m[r]| == 2 * n
    ensures forall r, j :: 0 <= r < n && 0 <= j < 2 * n ==>
              m[r][j] == if j < n then a[r][j] else if j == r + n then ONE else ZERO
  {
    seq(n, r requires 0 <= r < n => seq(2 * n, j requires 0 <= j < 2 * n => if j < n then a[r][j] else if j == r + n then ONE else ZERO))
  }

  /** The matrix before forward column i. */
  function Before(a: seq<Row>, n: nat, i: nat): (m: seq<Row>)
    requires SquareMatrix(a, n) && i <= n
    ensures |m| == n && forall r :: 0 <= r < n ==> |m[r]| == 2 * n
  {
    if i == 0 then Augmented(a, n) else NextColumn(Before(a, n, i - 1), n, i - 1)
  }

  /** The pivot of column i, before the guard. */
  function Pivot(a: seq<Row>, n: nat, i: nat): Complex
    requires SquareMatrix(a, n) && i < n
  {
    Swapped(Before(a, n, i), n, i)[i][i]
  }

  ghost predicate TakesGuard(a: seq<Row>, n: nat)
    requires SquareMatrix(a, n)
  {
    exists i: nat :: i < n && IsTiny(Pivot(a, n, i))
  }

  /** Column i eliminated from rows i-1 down to k. */
  function ClearedAbove(m: seq<Row>, n: nat, i: nat, k: nat): (m': seq<Row>)
    requires |m| == n && (forall r :: 0 <= r < n ==> |m[r]| == 2 * n) && k <= i < n
    ensures |m'| == n && forall r :: 0 <= r < n ==> |m'[r]| == 2 * n
    decreases i - k
  {
    if k == i then m
    else
      var b := ClearedAbove(m, n, i, k + 1);
      b[k := SubtractRow(b[k], b[k][i], b[i])]
  }

  /** After backward columns n-1 .. i. */
  function Back(a: seq<Row>, n: nat, i: nat): (m: seq<Row>)
    requires SquareMatrix(a, n) && i <= n
    ensures |m| == n && forall r :: 0 <= r < n ==> |m[r]| == 2 * n
    decreases n - i
  {
    if i == n then Before(a, n, n) else ClearedAbove(Back(a, n, i + 1), n, i, 0)
  }

  /** What the routine leaves in inv_A. */
  function Inverse(a: seq<Row>, n: nat): (inv: seq<Row>)
    requires SquareMatrix(a, n)
    ensures SquareMatrix(inv, n)
  {
    var m := Back(a, n, 0);
    seq(n, r requires 0 <= r < n => m[r][n..])
  }

  // ---- what the row operations keep ----

  /** Columns before i are done: unit diagonal above row i, zeros below the diagonal. */
  ghost predicate Upper(m: seq<Row>, n: nat, i: nat)
    requires IsMatrix(m, n) && i <= n
  {
    && (forall r, c :: 0 <= r < n && 0 <= c < i && c < r ==> m[r][c] == ZERO)
    && (forall r :: 0 <= r < i ==> m[r][r] == ONE)
  }

  /** Moreover columns from i on are zero above the diagonal. */
  ghost predicate Reduced(m: seq<Row>, n: nat, i: nat)
    requires IsMatrix(m, n) && i <= n
  {
    Upper(m, n, n) && forall r, c :: 0 <= r < c && i <= c < n ==> m[r][c] == ZERO
  }

  /** With no guard taken the left block is the right block times A and nothing of the system is
      lost; a guard leaves a defect, and no later row operation removes it. */
  ghost predicate Tracks(m: seq<Row>, n: nat, a: seq<Row>, guarded: bool, column: nat)
    requires IsMatrix(m, n) && SquareMatrix(a, n)
  {
    if guarded then column < n && exists r :: 0 <= r < n && Defect(m[r], n, a, column) != ZERO
    else Reversible(m, n, a) && forall r, c :: 0 <= r < n && 0 <= c < n ==> Defect(m[r], n, a, c) == ZERO
  }

  lemma TracksSwap(m: seq<Row>, n: nat, a: seq<Row>, guarded: bool, column: nat, i: nat, p: nat)
    requires IsMatrix(m, n) && SquareMatrix(a, n) && i < n && p < n && Tracks(m, n, a, guarded, column)
    ensures Tracks(m[i := m[p]][p := m[i]], n, a, guarded, column)
  {
    var m' := m[i := m[p]][p := m[i]];
    if guarded {
      var r :| 0 <= r < n && Defect(m[r], n, a, column) != ZERO;
      var r' := if r == i then p else if r == p then i else r;
      assert m'[r'] == m[r];
    } else {
      ReversibleSwap(m, n, a, i, p);
    }
  }

  lemma TracksScale(m: seq<Row>, n: nat, a: seq<Row>, guarded: bool, column: nat, i: nat, f: Complex)
    requires IsMatrix(m, n) && SquareMatrix(a, n) && i < n && f != ZERO && Tracks(m, n, a, guarded, column)
    ensures Tracks(m[i := ScaleRow(f, m[i])], n, a, guarded, column)
  {
    hide Defect, Mul;
    var m' := m[i := ScaleRow(f, m[i])];
    forall c | 0 <= c < n
      ensures Defect(m'[i], n, a, c) == Mul(f, Defect(m[i], n, a, c))
    {
      DefectScale(f, m[i], n, a, c);
    }
    MulZero(f);
    if guarded {
      var r :| 0 <= r < n && Defect(m[r], n, a, column) != ZERO;
      if r == i { ProductNonZero(f, Defect(m[i], n, a, column)); }
      assert Defect(m'[r], n, a, column) != ZERO;
    } else {
      ReversibleScale(m, n, a, i, f);
    }
  }

  lemma TracksSubtract(m: seq<Row>, n: nat, a: seq<Row>, guarded: bool, column: nat, k: nat, i: nat, f: Complex)
    requires IsMatrix(m, n) && SquareMatrix(a, n) && k < n && i < n && k != i && Tracks(m, n, a, guarded, column)
    ensures Tracks(m[k := SubtractRow(m[k], f, m[i])], n, a, guarded, column)
  {
    hide Defect, Mul, Sub;
    var m' := m[k := SubtractRow(m[k], f, m[i])];
    forall c | 0 <= c < n
      ensures Defect(m'[k], n, a, c) == Sub(Defect(m[k], n, a, c), Mul(f, Defect(m[i], n, a, c)))
    {
      DefectSubtract(m[k], f, m[i], n, a, c);
    }
    MulZero(f);
    if guarded {
      var r :| 0 <= r < n && Defect(m[r], n, a, column) != ZERO;
      if r == k && Defect(m[i], n, a, column) == ZERO { SubZero(Defect(m[k], n, a, column)); }
      var r' := if r == k && Defect(m[i], n, a, column) != ZERO then i else r;
      assert Defect(m'[r'], n, a, column) != ZERO;
    } else {
      SubZero(ZERO);
      ReversibleSubtract(m, n, a, k, i, f);
    }
  }

  /** The first guard makes a defect in column i; a later one leaves column `column` alone. */
  lemma TracksGuard(m: seq<Row>, n: nat, a: seq<Row>, guarded: bool, column: nat, i: nat, pivot: Complex)
    requires IsMatrix(m, n) && SquareMatrix(a, n) && i < n && Tracks(m, n, a, guarded, column)
    requires guarded ==> column < i
    requires pivot != m[i][i]
    ensures Tracks(m[i := m[i][i := pivot]], n, a, true, if guarded then column else i)
  {
    var row' := m[i][i := pivot];
    var m' := m[i := row'];
    forall c | 0 <= c < n
      ensures Combine(row', n, a, c, n) == Combine(m[i], n, a, c, n)
    {
      CombineIgnoresLeft(row', m[i], n, a, c, n);
    }
    if guarded {
      var r :| 0 <= r < n && Defect(m[r], n, a, column) != ZERO;
      assert Defect(m'[r], n, a, column) != ZERO;
    } else {
      assert Defect(m[i], n, a, i) == ZERO;
      SubIsZero(m[i][i], Combine(m[i], n, a, i, n));
      SubIsZero(pivot, Combine(m[i], n, a, i, n));
      assert Defect(m'[i], n, a, i) != ZERO;
    }
  }

  // ---- forward and backward steps on the ghost matrix ----

  lemma ForwardSwap(m: seq<Row>, n: nat, i: nat, p: nat)
    requires IsMatrix(m, n) && i <= p < n && Upper(m, n, i)
    ensures IsMatrix(m[i := m[p]][p := m[i]], n) && Upper(m[i := m[p]][p := m[i]], n, i)
  {
  }

  /** Scaling makes the pivot 1 and keeps the zeros to its left. */
  lemma ForwardScale(m: seq<Row>, n: nat, i: nat)
    requires IsMatrix(m, n) && i < n && Upper(m, n, i) && Power(m[i][i]) != 0.0
    ensures var m' := m[i := ScaleRow(Reciprocal(m[i][i]), m[i])];
      IsMatrix(m', n) && Upper(m', n, i) && m'[i][i] == ONE
  {
    hide Mul, Power, Reciprocal;
    var f := Reciprocal(m[i][i]);
    MulReciprocal(m[i][i]);
    MulZero(f);
    MulCommutes(f, ZERO);
  }

  /** Eliminating row k clears its column i and keeps the zeros before it. */
  lemma ForwardSubtract(m: seq<Row>, n: nat, i: nat, k: nat)
    requires IsMatrix(m, n) && i < k < n && Upper(m, n, i) && m[i][i] == ONE
    ensures var m' := m[k := SubtractRow(m[k], m[k][i], m[i])];
      IsMatrix(m', n) && Upper(m', n, i) && m'[k][i] == ZERO
  {
    hide Mul, Sub;
    MulZero(m[k][i]);
    SubZero(ZERO);
    MulOne(m[k][i]);
    SubSelf(m[k][i]);
  }

  lemma BackwardSubtract(m: seq<Row>, n: nat, i: nat, k: nat)
    requires IsMatrix(m, n) && k < i < n && Reduced(m, n, i + 1)
    ensures var m' := m[k := SubtractRow(m[k], m[k][i], m[i])];
      && IsMatrix(m', n) && Reduced(m', n, i + 1) && m'[k][i] == ZERO
      && forall c :: 0 <= c < i ==> m'[k][c] == m[k][c]
  {
    hide Mul, Sub;
    var f := m[k][i];
    MulZero(f);
    MulOne(f);
    SubSelf(f);
    forall c | 0 <= c < n && c != i
      ensures SubtractRow(m[k], f, m[i])[c] == m[k][c]
    {
      assert m[i][c] == ZERO;
      SubZero(m[k][c]);
    }
  }

  // ---- column by column ----

  lemma {:induction false} ClearedTracks(m: seq<Row>, n: nat, a: seq<Row>, guarded: bool, column: nat, i: nat, k: nat)
    requires IsMatrix(m, n) && SquareMatrix(a, n) && i < k <= n
    requires Upper(m, n, i) && m[i][i] == ONE && Tracks(m, n, a, guarded, column)
    ensures var m' := Cleared(m, n, i, k);
      Upper(m', n, i) && m'[i] == m[i] && (forall r :: i < r < k ==> m'[r][i] == ZERO)
      && (forall r :: k <= r < n ==> m'[r] == m[r]) && Tracks(m', n, a, guarded, column)
  {
    hide Tracks, Mul, Sub;
    if k > i + 1 {
      ClearedTracks(m, n, a, guarded, column, i, k - 1);
      var b := Cleared(m, n, i, k - 1);
      ForwardSubtract(b, n, i, k - 1);
      TracksSubtract(b, n, a, guarded, column, k - 1, i, b[k - 1][i]);
    }
  }

  /** One forward column; `tiny` tells whether it takes the guard. */
  lemma NextColumnTracks(m: seq<Row>, n: nat, a: seq<Row>, guarded: bool, column: nat, i: nat)
    returns (column': nat)
    requires IsMatrix(m, n) && SquareMatrix(a, n) && i < n
    requires Upper(m, n, i) && Tracks(m, n, a, guarded, column) && (guarded ==> column < i)
    ensures var tiny := IsTiny(Swapped(m, n, i)[i][i]);
      Upper(NextColumn(m, n, i), n, i + 1)
      && Tracks(NextColumn(m, n, i), n, a, guarded || tiny, column') && (guarded || tiny ==> column' < i + 1)
  {
    hide Tracks, Defect, Power, Mul, Sub, Reciprocal;
    var p := BestRow(m, n, i, n);
    var s := Swapped(m, n, i);
    ForwardSwap(m, n, i, p);
    TracksSwap(m, n, a, guarded, column, i, p);
    var tiny := IsTiny(s[i][i]);
    var g := Guarded(s, n, i);
    column' := if tiny && !guarded then i else column;
    if tiny {
      TinyIsNonZero();
      TracksGuard(s, n, a, guarded, column, i, TINY);
    }
    GuardKeepsUpper(s, n, i);
    ForwardScale(g, n, i);
    ReciprocalNonZero(g[i][i]);
    TracksScale(g, n, a, guarded || tiny, column', i, Reciprocal(g[i][i]));
    ClearedTracks(Scaled(g, n, i), n, a, guarded || tiny, column', i, n);
  }

  lemma GuardKeepsUpper(m: seq<Row>, n: nat, i: nat)
    requires IsMatrix(m, n) && i < n && Upper(m, n, i)
    ensures Upper(Guarded(m, n, i), n, i)
  {
    hide Power;
  }

  ghost predicate GuardBefore(a: seq<Row>, n: nat, i: nat)
    requires SquareMatrix(a, n) && i <= n
  {
    exists j: nat :: j < i && IsTiny(Pivot(a, n, j))
  }

  lemma {:induction false} ForwardTracks(a: seq<Row>, n: nat, i: nat) returns (column: nat)
    requires SquareMatrix(a, n) && i <= n
    ensures Upper(Before(a, n, i), n, i) && Tracks(Before(a, n, i), n, a, GuardBefore(a, n, i), column)
    ensures GuardBefore(a, n, i) ==> column < i
  {
    hide Tracks, NextColumn, Swapped, IsTiny;
    if i == 0 {
      column := 0;
      StartsTracked(Augmented(a, n), n, a);
    } else {
      column := ForwardTracks(a, n, i - 1);
      column := NextColumnTracks(Before(a, n, i - 1), n, a, GuardBefore(a, n, i - 1), column, i - 1);
      assert GuardBefore(a, n, i) <==> GuardBefore(a, n, i - 1) || IsTiny(Pivot(a, n, i - 1));
    }
  }

  lemma {:induction false} ClearedAboveTracks(m: seq<Row>, n: nat, a: seq<Row>, guarded: bool, column: nat, i: nat, k: nat)
    requires IsMatrix(m, n) && SquareMatrix(a, n) && k <= i < n
    requires Reduced(m, n, i + 1) && Tracks(m, n, a, guarded, column)
    ensures var m' := ClearedAbove(m, n, i, k);
      Reduced(m', n, i + 1) && (forall r :: k <= r < i ==> m'[r][i] == ZERO) && Tracks(m', n, a, guarded, column)
    decreases i - k
  {
    hide Tracks, Mul, Sub;
    if k < i {
      ClearedAboveTracks(m, n, a, guarded, column, i, k + 1);
      var b := ClearedAbove(m, n, i, k + 1);
      BackwardSubtract(b, n, i, k);
      TracksSubtract(b, n, a, guarded, column, k, i, b[k][i]);
    }
  }

  lemma {:induction false} BackTracks(a: seq<Row>, n: nat, i: nat) returns (column: nat)
    requires SquareMatrix(a, n) && i <= n
    ensures Reduced(Back(a, n, i), n, i) && Tracks(Back(a, n, i), n, a, TakesGuard(a, n), column)
    decreases n - i
  {
    hide Tracks, Pivot, Before, ClearedAbove;
    if i == n {
      column := ForwardTracks(a, n, n);
      assert GuardBefore(a, n, n) <==> TakesGuard(a, n);
    } else {
      column := BackTracks(a, n, i + 1);
      ClearedAboveTracks(Back(a, n, i + 1), n, a, TakesGuard(a, n), column, i, 0);
    }
  }

  /** The augmented matrix (A | I) has no defect. */
  lemma {:induction false} IdentityCombines(row: Row, n: nat, a: seq<Row>, r: nat, c: nat, k: nat)
    requires |row| == 2 * n && SquareMatrix(a, n) && r < n && c < n && k <= n
    requires forall j :: n <= j < 2 * n ==> row[j] == if j == r + n then ONE else ZERO
    ensures Combine(row, n, a, c, k) == if r < k then a[r][c] else ZERO
  {
    hide Mul;
    if k > 0 {
      IdentityCombines(row, n, a, r, c, k - 1);
      var x := a[k - 1][c];
      MulOne(x); MulCommutes(x, ONE);
      MulZero(x); MulCommutes(x, ZERO);
    }
  }

  lemma StartsTracked(m: seq<Row>, n: nat, a: seq<Row>)
    requires IsMatrix(m, n) && SquareMatrix(a, n)
    requires forall r, j :: 0 <= r < n && 0 <= j < 2 * n ==>
               m[r][j] == if j < n then a[r][j] else if j == r + n then ONE else ZERO
    ensures Tracks(m, n, a, false, 0)
  {
    hide Combine;
    forall r, c | 0 <= r < n && 0 <= c < n
      ensures Defect(m[r], n, a, c) == ZERO
    {
      IdentityCombines(m[r], n, a, r, c, n);
      SubSelf(a[r][c]);
    }
    StartsReversible(m, n, a);
  }

  // ---- when the result is the inverse ----

  /** Entry (r, c) of inv * a, summed over the first k terms. */
  function ProductEntry(inv: seq<Row>, a: seq<Row>, n: nat, r: nat, c: nat, k: nat): Complex
    requires SquareMatrix(inv, n) && SquareMatrix(a, n) && r < n && c < n && k <= n
  {
    if k == 0 then ZERO else Add(ProductEntry(inv, a, n, r, c, k - 1), Mul(inv[r][k - 1], a[k - 1][c]))
  }

  /** inv * a == I. */
  ghost predicate IsLeftInverse(inv: seq<Row>, a: seq<Row>, n: nat)
    requires SquareMatrix(inv, n) && SquareMatrix(a, n)
  {
    forall r, c :: 0 <= r < n && 0 <= c < n ==> ProductEntry(inv, a, n, r, c, n) == if r == c then ONE else ZERO
  }

  /** w == inv * p. */
  ghost predicate IsProduct(inv: seq<Row>, n: nat, w: seq<Complex>, p: seq<Complex>)
    requires SquareMatrix(inv, n) && |w| == |p| == n
  {
    forall r :: 0 <= r < n ==> w[r] == Sum(inv[r], p, n)
  }

  /** Whatever p is, inv * p solves a w == p. */
  ghost predicate SolvesAll(inv: seq<Row>, a: seq<Row>, n: nat)
    requires SquareMatrix(inv, n) && SquareMatrix(a, n)
  {
    forall w: seq<Complex>, p: seq<Complex> :: |w| == |p| == n && IsProduct(inv, n, w, p) ==> Solves(a, n, w, p)
  }

  lemma {:induction false} ProductIsCombination(inv: seq<Row>, m: seq<Row>, a: seq<Row>, n: nat, r: nat, c: nat, k: nat)
    requires SquareMatrix(inv, n) && IsMatrix(m, n) && SquareMatrix(a, n) && r < n && c < n && k <= n
    requires inv[r] == m[r][n..]
    ensures ProductEntry(inv, a, n, r, c, k) == Combine(m[r], n, a, c, k)
  {
    if k > 0 { ProductIsCombination(inv, m, a, n, r, c, k - 1); }
  }

  function ProductRow(inv: seq<Row>, a: seq<Row>, n: nat, r: nat, k: nat): (q: seq<Complex>)
    requires SquareMatrix(inv, n) && SquareMatrix(a, n) && r < n && k <= n
    ensures |q| == n && forall c :: 0 <= c < n ==> q[c] == ProductEntry(inv, a, n, r, c, k)
  {
    seq(n, c requires 0 <= c < n => ProductEntry(inv, a, n, r, c, k))
  }

  /** inv (a w), one entry, is (inv a) w. */
  lemma {:induction false} Reassociate(inv: seq<Row>, a: seq<Row>, n: nat, w: seq<Complex>, p: seq<Complex>, r: nat, k: nat)
    requires SquareMatrix(inv, n) && SquareMatrix(a, n) && |p| == n && r < n && k <= n
    requires Solves(a, n, w, p)
    ensures Sum(inv[r], p, k) == Sum(ProductRow(inv, a, n, r, k), w, n)
  {
    hide Mul, Add;
    if k == 0 {
      SumOfZeros(ProductRow(inv, a, n, r, 0), w, n);
    } else {
      Reassociate(inv, a, n, w, p, r, k - 1);
      SumIsLinear(ProductRow(inv, a, n, r, k), ProductRow(inv, a, n, r, k - 1), inv[r][k - 1], a[k - 1], w, n);
    }
  }

  /** A left inverse applied to p gives any solution of a w == p. */
  lemma LeftInverseSolves(inv: seq<Row>, a: seq<Row>, n: nat, w: seq<Complex>, p: seq<Complex>, r: nat)
    requires SquareMatrix(inv, n) && SquareMatrix(a, n) && |p| == n && r < n
    requires IsLeftInverse(inv, a, n) && Solves(a, n, w, p)
    ensures Sum(inv[r], p, n) == w[r]
  {
    hide Mul, Add, ProductEntry, Sum;
    Reassociate(inv, a, n, w, p, r, n);
    SumOfUnit(ProductRow(inv, a, n, r, n), w, r, n);
  }

  /** The routine inverts A exactly when no pivot is tiny, and then inv * p solves A w == p for
      every p. */
  lemma InvertsUnlessGuarded(a: seq<Row>, n: nat)
    requires SquareMatrix(a, n)
    ensures IsLeftInverse(Inverse(a, n), a, n) <==> !TakesGuard(a, n)
    ensures !TakesGuard(a, n) ==> SolvesAll(Inverse(a, n), a, n)
  {
    hide Back, Combine, ProductEntry, Sub, Sum, Solves, Reversible, TakesGuard;
    var column := BackTracks(a, n, 0);
    var m, inv := Back(a, n, 0), Inverse(a, n);
    forall r, c | 0 <= r < n && 0 <= c < n
      ensures ProductEntry(inv, a, n, r, c, n) == (if r == c then ONE else ZERO) <==> Defect(m[r], n, a, c) == ZERO
    {
      ProductIsCombination(inv, m, a, n, r, c, n);
      SubIsZero(m[r][c], Combine(m[r], n, a, c, n));
    }
    if TakesGuard(a, n) {
      var r :| 0 <= r < n && Defect(m[r], n, a, column) != ZERO;
      assert ProductEntry(inv, a, n, r, column, n) != if r == column then ONE else ZERO;
    } else {
      forall w: seq<Complex>, p: seq<Complex> | |w| == |p| == n && IsProduct(inv, n, w, p) ensures Solves(a, n, w, p) {
        IdentitySolves(m, n, a, w, p);
      }
    }
  }

  /** The zero vector. */
  function Nothing(n: nat): (p: seq<Complex>)
    ensures |p| == n && forall i :: 0 <= i < n ==> p[i] == ZERO
  {
    seq(n, _ => ZERO)
  }

  /** A singular matrix always takes the guard. */
  lemma SingularTakesGuard(a: seq<Row>, n: nat, w: seq<Complex>)
    requires SquareMatrix(a, n) && Solves(a, n, w, Nothing(n)) && w != Nothing(n)
    ensures TakesGuard(a, n)
  {
    hide Sum, Solves, TakesGuard, Inverse, IsLeftInverse;
    var zeros := Nothing(n);
    SolutionLength(a, n, w, zeros);
    assert !(forall r :: 0 <= r < n ==> w[r] == zeros[r]);
    var r :| 0 <= r < n && w[r] != zeros[r];
    TimesNothing(Inverse(a, n)[r], n, n);
    if !TakesGuard(a, n) {
      InvertsUnlessGuarded(a, n);
      LeftInverseSolves(Inverse(a, n), a, n, w, zeros, r);
    }
  }

  lemma SolutionLength(a: seq<Row>, n: nat, w: seq<Complex>, p: seq<Complex>)
    requires SquareMatrix(a, n) && |p| == n && Solves(a, n, w, p)
    ensures |w| == n
  {
  }

  lemma {:induction false} TimesNothing(u: seq<Complex>, n: nat, k: nat)
    requires |u| == n && k <= n
    ensures Sum(u, Nothing(n), k) == ZERO
  {
    hide Mul, Add;
    if k > 0 {
      TimesNothing(u, n, k - 1);
      MulZero(u[k - 1]);
      AddZero(ZERO);
    }
  }
}

/** cyclic_ls_equalizer.py, _invert_5x5_hermitian, in place: every loop touches only the columns it
    needs, and the result is that of the full-width elimination. */
module PivotedInversion {
  import opened ComplexVectors
  import opened RowReduction
  import opened Elimination

  ghost predicate Shaped(aug: array2<Complex>, n: nat) { aug.Length0 == n && aug.Length1 == 2 * n }

  /** The array agrees with the full-width matrix wherever it will be read again: before forward
      column i, and (with i == n) before the backward phase, */
  ghost predicate AgreesForward(aug: array2<Complex>, m: seq<Row>, n: nat, i: nat)
    requires Shaped(aug, n) && IsMatrix(m, n)
    reads aug
  {
    forall r, j :: 0 <= r < n && 0 <= j < 2 * n && (j >= i || j > r) ==> aug[r, j] == m[r][j]
  }

  /** and before backward column i - 1. */
  ghost predicate AgreesBackward(aug: array2<Complex>, m: seq<Row>, n: nat, i: nat)
    requires Shaped(aug, n) && IsMatrix(m, n)
    reads aug
  {
    forall r, j :: 0 <= r < n && 0 <= j < 2 * n && (j >= n || r < j < i) ==> aug[r, j] == m[r][j]
  }

  // ---- partial row loops ----

  method SwapFrom(aug: array2<Complex>, i: nat, p: nat)
    requires i < aug.Length0 && p < aug.Length0 && i <= aug.Length1
    modifies aug
    ensures forall r, j :: 0 <= r < aug.Length0 && 0 <= j < aug.Length1 ==>
              aug[r, j] == if j < i then old(aug[r, j]) else if r == i then old(aug[p, j]) else if r == p then old(aug[i, j]) else old(aug[r, j])
  {
    for j := i to aug.Length1
      invariant forall r, c :: 0 <= r < aug.Length0 && 0 <= c < aug.Length1 ==>
                  aug[r, c] == if c < i || c >= j then old(aug[r, c]) else if r == i then old(aug[p, c]) else if r == p then old(aug[i, c]) else old(aug[r, c])
    {
      var temp := aug[i, j];
      aug[i, j] := aug[p, j];
      aug[p, j] := temp;
    }
  }

  method ScaleFrom(aug: array2<Complex>, i: nat, f: Complex)
    requires i < aug.Length0 && i <= aug.Length1
    modifies aug
    ensures forall r, j :: 0 <= r < aug.Length0 && 0 <= j < aug.Length1 ==>
              aug[r, j] == if r == i && j >= i then Mul(old(aug[r, j]), f) else old(aug[r, j])
  {
    hide Mul;
    for j := i to aug.Length1
      invariant forall r, c :: 0 <= r < aug.Length0 && 0 <= c < aug.Length1 ==>
                  aug[r, c] == if r == i && i <= c < j then Mul(old(aug[r, c]), f) else old(aug[r, c])
    {
      aug[i, j] := Mul(aug[i, j], f);
    }
  }

  method SubtractFrom(aug: array2<Complex>, k: nat, i: nat, factor: Complex)
    requires i < aug.Length0 && k < aug.Length0 && k != i && i <= aug.Length1
    modifies aug
    ensures forall r, j :: 0 <= r < aug.Length0 && 0 <= j < aug.Length1 ==>
              aug[r, j] == if r == k && j >= i then Sub(old(aug[r, j]), Mul(factor, old(aug[i, j]))) else old(aug[r, j])
  {
    hide Mul, Sub;
    for j := i to aug.Length1
      invariant forall r, c :: 0 <= r < aug.Length0 && 0 <= c < aug.Length1 ==>
                  aug[r, c] == if r == k && i <= c < j then Sub(old(aug[r, c]), Mul(factor, old(aug[i, c]))) else old(aug[r, c])
    {
      aug[k, j] := Sub(aug[k, j], Mul(factor, aug[i, j]));
    }
  }

  /** Partial pivoting: the row whose entry in column i is largest, the first one among equals. */
  method FindPivot(aug: array2<Complex>, n: nat, i: nat) returns (p: nat)
    requires aug.Length0 == n && i < n && i < aug.Length1
    ensures i <= p < n
    ensures forall k :: i <= k < n ==> Power(aug[k, i]) <= Power(aug[p, i])
    ensures forall k :: i <= k < p ==> Power(aug[k, i]) < Power(aug[p, i])
  {
    hide Power;
    p := i;
    var pivotVal := Power(aug[i, i]);
    for k := i + 1 to n
      invariant i <= p < k && pivotVal == Power(aug[p, i])
      invariant forall r :: i <= r < k ==> Power(aug[r, i]) <= pivotVal
      invariant forall r :: i <= r < p ==> Power(aug[r, i]) < pivotVal
    {
      var val := Power(aug[k, i]);
      if val > pivotVal { p, pivotVal := k, val; }
    }
  }

  /** Pivoting, the guard and the scaling of row i. */
  method PreparePivot(aug: array2<Complex>, n: nat, i: nat, ghost m: seq<Row>) returns (tiny: bool)
    requires Shaped(aug, n) && i < n && IsMatrix(m, n) && AgreesForward(aug, m, n, i)
    modifies aug
    ensures tiny <==> IsTiny(Swapped(m, n, i)[i][i])
    ensures var m' := Scaled(Guarded(Swapped(m, n, i), n, i), n, i);
      AgreesForward(aug, m', n, i + 1) && forall r :: i < r < n ==> aug[r, i] == m'[r][i]
  {
    hide Power, Mul, Reciprocal;
    var p := FindPivot(aug, n, i);
    SamePivot(aug, m, n, i, p);
    if p != i { SwapFrom(aug, i, p); }
    ghost var s := Swapped(m, n, i);
    assert AgreesForward(aug, s, n, i);
    var pivot := aug[i, i];
    tiny := IsTiny(pivot);
    TinyIsNonZero();
    if tiny { pivot := TINY; }
    assert pivot == Guarded(s, n, i)[i][i];
    ScaleFrom(aug, i, Reciprocal(pivot));
  }

  lemma SamePivot(aug: array2<Complex>, m: seq<Row>, n: nat, i: nat, p: nat)
    requires Shaped(aug, n) && i < n && IsMatrix(m, n) && AgreesForward(aug, m, n, i) && i <= p < n
    requires forall k :: i <= k < n ==> Power(aug[k, i]) <= Power(aug[p, i])
    requires forall k :: i <= k < p ==> Power(aug[k, i]) < Power(aug[p, i])
    ensures p == BestRow(m, n, i, n)
  {
    hide Power;
    var b := BestRow(m, n, i, n);
    assert forall k :: i <= k < n ==> aug[k, i] == m[k][i];
  }

  /** One column of the forward phase. */
  method ForwardColumn(aug: array2<Complex>, n: nat, i: nat, ghost m: seq<Row>) returns (tiny: bool)
    requires Shaped(aug, n) && i < n && IsMatrix(m, n) && AgreesForward(aug, m, n, i)
    modifies aug
    ensures tiny <==> IsTiny(Swapped(m, n, i)[i][i])
    ensures AgreesForward(aug, NextColumn(m, n, i), n, i + 1)
  {
    hide Mul, Sub, Power, Swapped, Guarded, Scaled;
    tiny := PreparePivot(aug, n, i, m);
    ghost var s := Scaled(Guarded(Swapped(m, n, i), n, i), n, i);
    for k := i + 1 to n
      invariant AgreesForward(aug, Cleared(s, n, i, k), n, i + 1)
      invariant forall r :: k <= r < n ==> aug[r, i] == Cleared(s, n, i, k)[r][i]
    {
      SubtractFrom(aug, k, i, aug[k, i]);
    }
  }

  /** One column of the backward phase. */
  method BackwardColumn(aug: array2<Complex>, n: nat, i: nat, ghost m: seq<Row>)
    requires Shaped(aug, n) && i < n && IsMatrix(m, n) && AgreesBackward(aug, m, n, i + 1) && Reduced(m, n, i + 1)
    modifies aug
    ensures AgreesBackward(aug, ClearedAbove(m, n, i, 0), n, i)
  {
    hide Mul, Sub;
    var k: nat := i;
    while k > 0
      invariant k <= i && Reduced(ClearedAbove(m, n, i, k), n, i + 1)
      invariant AgreesBackward(aug, ClearedAbove(m, n, i, k), n, i)
      invariant forall r :: 0 <= r < k ==> aug[r, i] == ClearedAbove(m, n, i, k)[r][i]
    {
      k := k - 1;
      BackwardSubtract(ClearedAbove(m, n, i, k + 1), n, i, k);
      SubtractFrom(aug, k, i, aug[k, i]);
    }
  }

  function Contents(x: array2<Complex>, n: nat): (m: seq<Row>)
    requires x.Length0 == n && x.Length1 == n
    reads x
    ensures SquareMatrix(m, n)
    ensures forall r, c :: 0 <= r < n && 0 <= c < n ==> m[r][c] == x[r, c]
  {
    seq(n, r requires 0 <= r < n reads x => seq(n, c requires 0 <= c < n reads x => x[r, c]))
  }

  method Augment(x: array2<Complex>, n: nat) returns (aug: array2<Complex>)
    requires x.Length0 == n && x.Length1 == n
    ensures fresh(aug) && Shaped(aug, n)
    ensures forall r, j :: 0 <= r < n && 0 <= j < 2 * n ==>
              aug[r, j] == if j < n then x[r, j] else if j == r + n then ONE else ZERO
  {
    aug := new Complex[n, 2 * n]((r, j) => ZERO);
    for i := 0 to n
      invariant forall r, j :: 0 <= r < n && 0 <= j < 2 * n ==>
                  aug[r, j] == if r >= i then ZERO else if j < n then x[r, j] else if j == r + n then ONE else ZERO
    {
      for j := 0 to n
        invariant forall r, c :: 0 <= r < n && 0 <= c < 2 * n && r != i ==>
                    aug[r, c] == if r >= i then ZERO else if c < n then x[r, c] else if c == r + n then ONE else ZERO
        invariant forall c :: 0 <= c < 2 * n ==> aug[i, c] == if c < j then x[i, c] else ZERO
      {
        aug[i, j] := x[i, j];
      }
      aug[i, i + n] := ONE;
    }
  }

  method ForwardPhase(aug: array2<Complex>, n: nat, ghost a: seq<Row>) returns (guardTaken: bool)
    requires Shaped(aug, n) && SquareMatrix(a, n) && AgreesForward(aug, Before(a, n, 0), n, 0)
    modifies aug
    ensures AgreesForward(aug, Before(a, n, n), n, n)
    ensures guardTaken <==> GuardBefore(a, n, n)
  {
    hide NextColumn, Pivot, IsTiny, Augmented, Swapped;
    guardTaken := false;
    for i := 0 to n
      invariant AgreesForward(aug, Before(a, n, i), n, i)
      invariant guardTaken <==> GuardBefore(a, n, i)
    {
      var tiny := ForwardColumn(aug, n, i, Before(a, n, i));
      PivotIs(a, n, i);
      assert GuardBefore(a, n, i + 1) <==> GuardBefore(a, n, i) || IsTiny(Pivot(a, n, i));
      guardTaken := guardTaken || tiny;
    }
  }

  method BackwardPhase(aug: array2<Complex>, n: nat, ghost a: seq<Row>)
    requires Shaped(aug, n) && SquareMatrix(a, n) && AgreesForward(aug, Before(a, n, n), n, n)
    modifies aug
    ensures AgreesBackward(aug, Back(a, n, 0), n, 0)
  {
    hide ClearedAbove, Before, TakesGuard, Tracks;
    var i: nat := n;
    while i > 0
      invariant i <= n && AgreesBackward(aug, Back(a, n, i), n, i)
    {
      i := i - 1;
      ghost var _ := BackTracks(a, n, i + 1);
      BackwardColumn(aug, n, i, Back(a, n, i + 1));
    }
  }

  /** Gauss-Jordan elimination with partial pivoting and the 1e-12 guard, in place: it leaves
      exactly the result of the full-width elimination, and reports the guard exactly when some
      pivot of A is tiny. */
  method Invert(x: array2<Complex>, inv: array2<Complex>, n: nat) returns (guardTaken: bool)
    requires x.Length0 == n && x.Length1 == n && inv.Length0 == n && inv.Length1 == n
    modifies inv
    ensures guardTaken <==> TakesGuard(old(Contents(x, n)), n)
    ensures Contents(inv, n) == Inverse(old(Contents(x, n)), n)
  {
    ghost var a := Contents(x, n);
    var aug := Augment(x, n);
    hide Back, Pivot, Inverse;
    guardTaken := ForwardPhase(aug, n, a);
    BackwardPhase(aug, n, a);
    Extract(aug, inv, n, a);
  }

  lemma PivotIs(a: seq<Row>, n: nat, i: nat)
    requires SquareMatrix(a, n) && i < n
    ensures Pivot(a, n, i) == Swapped(Before(a, n, i), n, i)[i][i]
  {
  }

  method Extract(aug: array2<Complex>, inv: array2<Complex>, n: nat, ghost a: seq<Row>)
    requires Shaped(aug, n) && inv.Length0 == n && inv.Length1 == n && aug != inv && SquareMatrix(a, n)
    requires AgreesBackward(aug, Back(a, n, 0), n, 0)
    modifies inv
    ensures Contents(inv, n) == Inverse(a, n)
  {
    ghost var m := Back(a, n, 0);
    for r := 0 to n
      invariant forall k, j :: 0 <= k < r && 0 <= j < n ==> inv[k, j] == m[k][n + j]
    {
      for c := 0 to n
        invariant forall k, j :: 0 <= k < r && 0 <= j < n ==> inv[k, j] == m[k][n + j]
        invariant forall j :: 0 <= j < c ==> inv[r, j] == m[r][n + j]
      {
        inv[r, c] := aug[r, c + n];
      }
    }
    forall r | 0 <= r < n ensures Contents(inv, n)[r] == Inverse(a, n)[r] {
      assert Inverse(a, n)[r] == m[r][n..];
    }
  }
}
