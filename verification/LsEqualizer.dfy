/** cyclic_ls_equalizer.py, _compute_ls_filter_weights for one channel: correlate, assemble the
    loaded Toeplitz matrix, invert, multiply. */
module LsEqualizer {
  import opened ComplexVectors
  import opened RowReduction
  import opened LinearSystems
  import opened Elimination
  import opened PivotedInversion

  const TAPS := 5
  const LOADING := C(0.000001, 0.0)

  /** x[n+4-k] conj(d[n+4]) summed over the first m delay-line positions. */
  function CrossCorrelation(x: seq<Complex>, d: seq<Complex>, k: nat, m: nat): Complex
    requires k < TAPS && (m > 0 ==> m + TAPS - 1 <= |x| <= |d|)
  {
    if m == 0 then ZERO
    else Add(CrossCorrelation(x, d, k, m - 1), Mul(x[m + 3 - k], Conj(d[m + 3])))
  }

  /** x[n+4] conj(x[n+4-k]) summed over the first m delay-line positions. */
  function AutoCorrelation(x: seq<Complex>, k: nat, m: nat): Complex
    requires k < TAPS && (m > 0 ==> m + TAPS - 1 <= |x|)
  {
    if m == 0 then ZERO
    else Add(AutoCorrelation(x, k, m - 1), Mul(x[m + 3], Conj(x[m + 3 - k])))
  }

  function Loaded(r: seq<Complex>, i: nat, j: nat): Complex
    requires |r| == TAPS && i < TAPS && j < TAPS
  {
    if i == j then Add(r[0], LOADING) else if i < j then r[j - i] else Conj(r[i - j])
  }

  /** The Hermitian Toeplitz matrix with diagonal loading. */
  function Toeplitz(r: seq<Complex>): (m: seq<Row>)
    requires |r| == TAPS
    ensures SquareMatrix(m, TAPS)
    ensures forall i, j :: 0 <= i < TAPS && 0 <= j < TAPS ==> m[i][j] == Loaded(r, i, j)
  {
    seq(TAPS, i requires 0 <= i < TAPS => seq(TAPS, j requires 0 <= j < TAPS => Loaded(r, i, j)))
  }

  method Assemble(r: seq<Complex>, x: array2<Complex>)
    requires |r| == TAPS && x.Length0 == TAPS && x.Length1 == TAPS
    modifies x
    ensures Contents(x, TAPS) == Toeplitz(r)
  {
    for i := 0 to TAPS
      invariant forall k, j :: 0 <= k < TAPS && 0 <= j < TAPS && (k < i || j < i) ==> x[k, j] == Loaded(r, k, j)
    {
      x[i, i] := Add(r[0], LOADING);
      for j := i + 1 to TAPS
        invariant forall k, l :: 0 <= k < TAPS && 0 <= l < TAPS && (k < i || l < i) ==> x[k, l] == Loaded(r, k, l)
        invariant x[i, i] == Loaded(r, i, i)
        invariant forall l :: i < l < j ==> x[i, l] == Loaded(r, i, l) && x[l, i] == Loaded(r, l, i)
      {
        x[i, j] := r[j - i];
        x[j, i] := Conj(r[j - i]);
      }
    }
    var m := Contents(x, TAPS);
    forall i | 0 <= i < TAPS
      ensures m[i] == Toeplitz(r)[i]
    {
    }
  }

  /** Positions where the whole delay line is filled; none if the stride is shorter than it. */
  function ValidPositions(x: seq<Complex>): nat { if |x| < TAPS then 0 else |x| - TAPS + 1 }

  function CrossCorrelations(x: seq<Complex>, d: seq<Complex>): (p: seq<Complex>)
    requires |x| <= |d|
    ensures |p| == TAPS && forall k :: 0 <= k < TAPS ==> p[k] == CrossCorrelation(x, d, k, ValidPositions(x))
  {
    seq(TAPS, k requires 0 <= k < TAPS => CrossCorrelation(x, d, k, ValidPositions(x)))
  }

  function AutoCorrelations(x: seq<Complex>): (r: seq<Complex>)
    ensures |r| == TAPS && forall k :: 0 <= k < TAPS ==> r[k] == AutoCorrelation(x, k, ValidPositions(x))
  {
    seq(TAPS, k requires 0 <= k < TAPS => AutoCorrelation(x, k, ValidPositions(x)))
  }

  method Correlate(x: seq<Complex>, d: seq<Complex>) returns (p: seq<Complex>, r: seq<Complex>)
    requires |x| <= |d|
    ensures p == CrossCorrelations(x, d) && r == AutoCorrelations(x)
  {
    hide Mul, Add;
    var m := ValidPositions(x);
    var cross := new Complex[TAPS](_ => ZERO);
    var auto := new Complex[TAPS](_ => ZERO);
    for n := 0 to m
      invariant forall k :: 0 <= k < TAPS ==> cross[k] == CrossCorrelation(x, d, k, n) && auto[k] == AutoCorrelation(x, k, n)
    {
      for k := 0 to TAPS
        invariant forall l :: 0 <= l < TAPS ==>
                    cross[l] == CrossCorrelation(x, d, l, if l < k then n + 1 else n)
                    && auto[l] == AutoCorrelation(x, l, if l < k then n + 1 else n)
      {
        cross[k] := Add(cross[k], Mul(x[n + 4 - k], Conj(d[n + 4])));
        auto[k] := Add(auto[k], Mul(x[n + 4], Conj(x[n + 4 - k])));
      }
    }
    p, r := cross[..], auto[..];
  }

  /** The product inv * p, row by row. */
  method Apply(inv: array2<Complex>, p: seq<Complex>, weights: array<Complex>)
    requires inv.Length0 == TAPS && inv.Length1 == TAPS && |p| == TAPS && weights.Length == TAPS
    modifies weights
    ensures IsProduct(Contents(inv, TAPS), TAPS, weights[..], p)
  {
    for i := 0 to TAPS
      invariant forall k :: 0 <= k < i ==> weights[k] == Sum(Contents(inv, TAPS)[k], p, TAPS)
    {
      var val := ZERO;
      for c := 0 to TAPS
        invariant val == Sum(Contents(inv, TAPS)[i], p, c)
      {
        val := Add(val, Mul(inv[i, c], p[c]));
      }
      weights[i] := val;
    }
  }

  /** The loaded normal equations of a stride. */
  function NormalMatrix(x: seq<Complex>): (m: seq<Row>)
    ensures SquareMatrix(m, TAPS)
  {
    Toeplitz(AutoCorrelations(x))
  }

  ghost predicate IsOnlySolution(a: seq<Row>, w: seq<Complex>, p: seq<Complex>)
    requires SquareMatrix(a, TAPS) && |p| == TAPS
  {
    Solves(a, TAPS, w, p) && forall v :: Solves(a, TAPS, v, p) ==> v == w
  }

  /** The weights of one channel: the routine's inverse times the cross correlations, whatever the
      pivots; the one solution of the loaded normal equations when no pivot is tiny. */
  method ComputeWeights(x: seq<Complex>, d: seq<Complex>, weights: array<Complex>) returns (guardTaken: bool)
    requires |x| <= |d| && weights.Length == TAPS
    modifies weights
    ensures guardTaken <==> TakesGuard(NormalMatrix(x), TAPS)
    ensures IsProduct(Inverse(NormalMatrix(x), TAPS), TAPS, weights[..], CrossCorrelations(x, d))
    ensures !TakesGuard(NormalMatrix(x), TAPS) ==> IsOnlySolution(NormalMatrix(x), weights[..], CrossCorrelations(x, d))
  {
    hide Sum, AutoCorrelation, CrossCorrelation, TakesGuard, Inverse, Toeplitz, IsProduct, IsOnlySolution;
    var p, r := Correlate(x, d);
    var rMatrix := new Complex[TAPS, TAPS]((i, j) => ZERO);
    var inverse := new Complex[TAPS, TAPS]((i, j) => ZERO);
    Assemble(r, rMatrix);
    guardTaken := Invert(rMatrix, inverse, TAPS);
    Apply(inverse, p, weights);
    if !guardTaken { ProductIsOnlySolution(NormalMatrix(x), weights[..], p); }
  }

  lemma ProductIsOnlySolution(a: seq<Row>, w: seq<Complex>, p: seq<Complex>)
    requires SquareMatrix(a, TAPS) && |w| == |p| == TAPS && !TakesGuard(a, TAPS)
    requires IsProduct(Inverse(a, TAPS), TAPS, w, p)
    ensures IsOnlySolution(a, w, p)
  {
    hide Sum, Inverse, TakesGuard, IsLeftInverse;
    InvertsUnlessGuarded(a, TAPS);
    forall v | Solves(a, TAPS, v, p) ensures v == w {
      forall r | 0 <= r < TAPS ensures v[r] == w[r] {
        LeftInverseSolves(Inverse(a, TAPS), a, TAPS, v, p, r);
      }
    }
  }
}
