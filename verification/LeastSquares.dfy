/** cyclic_ls_equalizer.py: what the correlations, the weights and the filter have to do with the
    error that equalize_stride is said to minimise. */
module LeastSquares {
  import opened ComplexVectors
  import opened RowReduction
  import opened LinearSystems
  import opened Elimination
  import opened LsEqualizer
  import opened WellConditioned
  import PivotDominance

  // ---- the filter and its error ----

  function Conjs(w: seq<Complex>): (c: seq<Complex>)
    ensures |c| == |w| && forall k :: 0 <= k < |w| ==> c[k] == Conj(w[k])
  {
    seq(|w|, k requires 0 <= k < |w| => Conj(w[k]))
  }

  /** The delay line at valid position n, newest sample first. */
  function Line(x: seq<Complex>, n: nat): (t: seq<Complex>)
    requires n + TAPS <= |x|
    ensures |t| == TAPS && forall k :: 0 <= k < TAPS ==> t[k] == x[n + 4 - k]
  {
    seq(TAPS, k requires 0 <= k < TAPS => x[n + 4 - k])
  }

  /** u^H v. */
  function Inner(u: seq<Complex>, v: seq<Complex>): Complex
    requires |u| == |v|
  {
    Sum(Conjs(u), v, |v|)
  }

  /** The filter output w^H x at valid position n. */
  function Output(x: seq<Complex>, w: seq<Complex>, n: nat): Complex
    requires n + TAPS <= |x| && |w| == TAPS
  {
    Inner(w, Line(x, n))
  }

  /** Sum of |d - y|^2 over the first m valid positions. */
  function ErrorEnergy(x: seq<Complex>, d: seq<Complex>, w: seq<Complex>, m: nat): (e: real)
    requires |w| == TAPS && |x| <= |d| && (m > 0 ==> m + 4 <= |x|)
    ensures e >= 0.0
  {
    if m == 0 then 0.0 else ErrorEnergy(x, d, w, m - 1) + Power(Sub(d[m + 3], Output(x, w, m - 1)))
  }

  function OutputEnergy(x: seq<Complex>, w: seq<Complex>, m: nat): (e: real)
    requires |w| == TAPS && (m > 0 ==> m + 4 <= |x|)
    ensures e >= 0.0
  {
    if m == 0 then 0.0 else OutputEnergy(x, w, m - 1) + Power(Output(x, w, m - 1))
  }

  function ReferenceEnergy(d: seq<Complex>, m: nat): real
    requires m > 0 ==> m + 4 <= |d|
  {
    if m == 0 then 0.0 else ReferenceEnergy(d, m - 1) + Power(d[m + 3])
  }

  // ---- sums ----

  lemma {:induction false} SumTimes(u: seq<Complex>, w: seq<Complex>, f: Complex, w': seq<Complex>, k: nat)
    requires |u| == |w| == |w'| && k <= |w| && forall c :: 0 <= c < |w| ==> w'[c] == Mul(w[c], f)
    ensures Sum(u, w', k) == Mul(Sum(u, w, k), f)
  {
    hide Mul, Add;
    if k == 0 {
      MulZero(f); MulCommutes(f, ZERO);
    } else {
      SumTimes(u, w, f, w', k - 1);
      MulAssoc(u[k - 1], w[k - 1], f);
      MulAddLeft(Sum(u, w, k - 1), Mul(u[k - 1], w[k - 1]), f);
    }
  }

  lemma {:induction false} SumPlus(u: seq<Complex>, v: seq<Complex>, w: seq<Complex>, s: seq<Complex>, k: nat)
    requires |u| == |v| == |w| == |s| && k <= |w| && forall c :: 0 <= c < |w| ==> s[c] == Add(v[c], w[c])
    ensures Sum(u, s, k) == Add(Sum(u, v, k), Sum(u, w, k))
  {
    hide Mul, Add;
    if k == 0 {
      AddZero(ZERO);
    } else {
      SumPlus(u, v, w, s, k - 1);
      MulAdd(u[k - 1], v[k - 1], w[k - 1]);
      AddExchange(Sum(u, v, k - 1), Sum(u, w, k - 1), Mul(u[k - 1], v[k - 1]), Mul(u[k - 1], w[k - 1]));
    }
  }

  lemma {:induction false} SumCommutes(u: seq<Complex>, w: seq<Complex>, k: nat)
    requires |u| == |w| && k <= |w|
    ensures Sum(u, w, k) == Sum(w, u, k)
  {
    hide Mul, Add;
    if k > 0 {
      SumCommutes(u, w, k - 1);
      MulCommutes(u[k - 1], w[k - 1]);
    }
  }

  lemma ConjOfSum(x: Complex, y: Complex)
    ensures Conj(Add(x, y)) == Add(Conj(x), Conj(y)) && Conj(Sub(x, y)) == Sub(Conj(x), Conj(y)) && Conj(Conj(x)) == x
  {
  }

  lemma ConjOfProduct(x: Complex, y: Complex)
    ensures Conj(Mul(x, y)) == Mul(Conj(x), Conj(y))
  {
  }

  lemma {:induction false} ConjSum(u: seq<Complex>, w: seq<Complex>, k: nat)
    requires |u| == |w| && k <= |w|
    ensures Conj(Sum(u, w, k)) == Sum(Conjs(u), Conjs(w), k)
  {
    hide Mul, Add, Conj;
    if k == 0 {
      ConjOfZero();
    } else {
      ConjSum(u, w, k - 1);
      ConjOfSum(Sum(u, w, k - 1), Mul(u[k - 1], w[k - 1]));
      ConjOfProduct(u[k - 1], w[k - 1]);
    }
  }

  lemma ConjOfZero()
    ensures Conj(ZERO) == ZERO
  {
  }

  // ---- the cross correlations ----

  /** Entry k is x[n+4-k] conj(d[n+4]) summed over the first m positions. */
  function CrossVector(x: seq<Complex>, d: seq<Complex>, m: nat): (p: seq<Complex>)
    requires |x| <= |d| && (m > 0 ==> m + 4 <= |x|)
    ensures |p| == TAPS && forall k :: 0 <= k < TAPS ==> p[k] == CrossCorrelation(x, d, k, m)
  {
    seq(TAPS, k requires 0 <= k < TAPS => CrossCorrelation(x, d, k, m))
  }

  /** One position adds y conj(d) to v^H p, where y is the output of v. */
  lemma CrossStep(x: seq<Complex>, d: seq<Complex>, v: seq<Complex>, m: nat)
    requires |v| == TAPS && m > 0 && m + 4 <= |x| <= |d|
    ensures Inner(v, CrossVector(x, d, m)) == Add(Inner(v, CrossVector(x, d, m - 1)), Mul(Output(x, v, m - 1), Conj(d[m + 3])))
  {
    hide Mul, Add, Conj, Sum;
    var t, f := Line(x, m - 1), Conj(d[m + 3]);
    var inc := seq(TAPS, k requires 0 <= k < TAPS => Mul(t[k], f));
    SumTimes(Conjs(v), t, f, inc, TAPS);
    SumPlus(Conjs(v), CrossVector(x, d, m - 1), inc, CrossVector(x, d, m), TAPS);
  }

  /** |d - y|^2 over the stride is the energy of d, less twice the real part of w^H p, plus the
      energy of the output: p is the gradient of the error. */
  lemma {:induction false} ErrorExpands(x: seq<Complex>, d: seq<Complex>, w: seq<Complex>, m: nat)
    requires |w| == TAPS && |x| <= |d| && (m > 0 ==> m + 4 <= |x|)
    ensures ErrorEnergy(x, d, w, m) == ReferenceEnergy(d, m) - 2.0 * Inner(w, CrossVector(x, d, m)).re + OutputEnergy(x, w, m)
  {
    hide Output, Power, Inner;
    if m == 0 {
      InnerNothing(w, CrossVector(x, d, 0));
    } else {
      ErrorExpands(x, d, w, m - 1);
      CrossStep(x, d, w, m);
      PowerSub(d[m + 3], Output(x, w, m - 1));
      MulCommutes(Output(x, w, m - 1), Conj(d[m + 3]));
    }
  }

  lemma InnerNothing(w: seq<Complex>, p: seq<Complex>)
    requires |w| == |p| == TAPS && forall k :: 0 <= k < TAPS ==> p[k] == ZERO
    ensures Inner(w, p) == ZERO
  {
    SumCommutes(Conjs(w), p, TAPS);
    SumOfZeros(p, Conjs(w), TAPS);
  }

  // ---- the auto correlations ----

  /** Sum of |x[n+4] + z x[n+4-k]|^2 over the first m positions. */
  function EchoEnergy(x: seq<Complex>, k: nat, z: Complex, m: nat): real
    requires k < TAPS && (m > 0 ==> m + 4 <= |x|)
  {
    if m == 0 then 0.0 else EchoEnergy(x, k, z, m - 1) + Power(Add(x[m + 3], Mul(z, x[m + 3 - k])))
  }

  /** Sum of |x[n+4-k]|^2. */
  function DelayedEnergy(x: seq<Complex>, k: nat, m: nat): real
    requires k < TAPS && (m > 0 ==> m + 4 <= |x|)
  {
    if m == 0 then 0.0 else DelayedEnergy(x, k, m - 1) + Power(x[m + 3 - k])
  }

  lemma PowerOfEcho(a: Complex, z: Complex, b: Complex)
    ensures Power(Add(a, Mul(z, b))) == Power(a) + 2.0 * Mul(Conj(z), Mul(a, Conj(b))).re + Power(z) * Power(b)
  {
    hide Mul;
    var y := Mul(z, b);
    PowerOfTwo(a, y);
    PowerMul(z, b);
    assert Mul(Conj(a), y).re == Mul(Conj(z), Mul(a, Conj(b))).re by {
      ConjOfProduct(Conj(a), y); ConjOfProduct(z, b); ConjOfSum(a, y);
      MulSwap(a, Conj(z), Conj(b));
    }
  }

  lemma PowerOfTwo(a: Complex, y: Complex)
    ensures Power(Add(a, y)) == Power(a) + 2.0 * Mul(Conj(a), y).re + Power(y)
  {
    SquareOfSum(a.re, y.re); SquareOfSum(a.im, y.im);
  }

  lemma Doubling(x: real, y: real, p: real, q: real, z: real)
    ensures z * (p + q) == z * p + z * q && 2.0 * (x + y) == 2.0 * x + 2.0 * y
  {
  }

  /** The energy of the stride plus z times itself k samples later shows r_k, for every z. */
  lemma {:induction false} EchoExpands(x: seq<Complex>, k: nat, z: Complex, m: nat)
    requires k < TAPS && (m > 0 ==> m + 4 <= |x|)
    ensures EchoEnergy(x, k, z, m)
         == DelayedEnergy(x, 0, m) + 2.0 * Mul(Conj(z), AutoCorrelation(x, k, m)).re + Power(z) * DelayedEnergy(x, k, m)
  {
    hide Power, Mul, Conj;
    if m == 0 {
      MulZero(Conj(z));
    } else {
      EchoExpands(x, k, z, m - 1);
      var a, b := x[m + 3], x[m + 3 - k];
      PowerOfEcho(a, z, b);
      MulAdd(Conj(z), AutoCorrelation(x, k, m - 1), Mul(a, Conj(b)));
      Distribute(Power(z), DelayedEnergy(x, k, m - 1), Power(b));
    }
  }

  // ---- the exact normal matrix ----

  /** x[n+4-i] conj(x[n+4-j]) summed over the first m positions. */
  function Gram(x: seq<Complex>, i: nat, j: nat, m: nat): Complex
    requires i < TAPS && j < TAPS && (m > 0 ==> m + 4 <= |x|)
  {
    if m == 0 then ZERO else Add(Gram(x, i, j, m - 1), Mul(x[m + 3 - i], Conj(x[m + 3 - j])))
  }

  function ExactEntry(x: seq<Complex>, i: nat, j: nat): Complex
    requires i < TAPS && j < TAPS
  {
    Add(Gram(x, i, j, ValidPositions(x)), if i == j then LOADING else ZERO)
  }

  function ExactRow(x: seq<Complex>, i: nat): (row: Row)
    requires i < TAPS
    ensures |row| == TAPS && forall j :: 0 <= j < TAPS ==> row[j] == ExactEntry(x, i, j)
  {
    seq(TAPS, j requires 0 <= j < TAPS => ExactEntry(x, i, j))
  }

  /** The Gram matrix of the delay lines, loaded. */
  function ExactMatrix(x: seq<Complex>): (a: seq<Row>)
    ensures SquareMatrix(a, TAPS)
    ensures forall i :: 0 <= i < TAPS ==> a[i] == ExactRow(x, i)
  {
    seq(TAPS, i requires 0 <= i < TAPS => ExactRow(x, i))
  }

  predicate SameEdge(x: seq<Complex>, m: nat, a: nat, b: nat)
    requires a < 4 && b < 4 && |x| == m + 4
  {
    Mul(x[a], Conj(x[b])) == Mul(x[m + a], Conj(x[m + b]))
  }

  /** The first four samples and the last four have the same products: they are equal, or zero, or
      differ by a common phase. */
  predicate EdgesAgree(x: seq<Complex>) {
    var m := ValidPositions(x);
    m > 0 ==> forall a: nat, b: nat :: a < 4 && b < 4 ==> SameEdge(x, m, a, b)
  }

  lemma Swings(g: Complex, h: Complex, p: Complex, q: Complex, s: Complex)
    requires Sub(g, h) == Sub(p, q)
    ensures Sub(Add(g, q), Add(h, s)) == Sub(p, s)
  {
  }

  /** Along a diagonal the Gram matrix changes by an edge product. */
  lemma {:induction false} GramShift(x: seq<Complex>, i: nat, j: nat, m: nat)
    requires 0 < i < TAPS && 0 < j < TAPS && m > 0 && m + 4 <= |x|
    ensures Sub(Gram(x, i, j, m), Gram(x, i - 1, j - 1, m))
         == Sub(Mul(x[4 - i], Conj(x[4 - j])), Mul(x[m + 4 - i], Conj(x[m + 4 - j])))
  {
    hide Mul, Conj;
    var p, s := Mul(x[4 - i], Conj(x[4 - j])), Mul(x[m + 4 - i], Conj(x[m + 4 - j]));
    if m == 1 {
      assert Gram(x, i, j, 0) == ZERO && Gram(x, i - 1, j - 1, 0) == ZERO;
      assert Gram(x, i, j, 1) == Add(ZERO, p) && Gram(x, i - 1, j - 1, 1) == Add(ZERO, s);
    } else {
      GramShift(x, i, j, m - 1);
      Swings(Gram(x, i, j, m - 1), Gram(x, i - 1, j - 1, m - 1), p, Mul(x[m + 3 - i], Conj(x[m + 3 - j])), s);
    }
  }

  lemma {:induction false} GramIsHermitian(x: seq<Complex>, i: nat, j: nat, m: nat)
    requires i < TAPS && j < TAPS && (m > 0 ==> m + 4 <= |x|)
    ensures Gram(x, j, i, m) == Conj(Gram(x, i, j, m))
  {
    hide Mul, Conj, Add;
    if m == 0 {
      ConjOfZero();
    } else {
      GramIsHermitian(x, i, j, m - 1);
      var a, b := x[m + 3 - i], x[m + 3 - j];
      ConjOfSum(Gram(x, i, j, m - 1), Mul(a, Conj(b)));
      ConjOfSum(b, b);
      ConjOfProduct(a, Conj(b));
      MulCommutes(Conj(a), b);
    }
  }

  lemma {:induction false} GramOfNewest(x: seq<Complex>, k: nat, m: nat)
    requires k < TAPS && (m > 0 ==> m + 4 <= |x|)
    ensures Gram(x, 0, k, m) == AutoCorrelation(x, k, m)
  {
    if m > 0 { GramOfNewest(x, k, m - 1); }
  }

  /** Constant diagonals: what the equalizer assumes of the Gram matrix. */
  predicate IsConstantAlong(x: seq<Complex>) {
    var m := ValidPositions(x);
    forall i, j :: 0 < i < TAPS && 0 < j < TAPS ==> Gram(x, i, j, m) == Gram(x, i - 1, j - 1, m)
  }

  lemma ConstantExactlyWhenEdgesAgree(x: seq<Complex>)
    ensures IsConstantAlong(x) <==> EdgesAgree(x)
  {
    hide Gram, SameEdge;
    var m := ValidPositions(x);
    if m > 0 {
      forall a: nat, b: nat | a < 4 && b < 4 ensures SameEdge(x, m, a, b) <==> Gram(x, 4 - a, 4 - b, m) == Gram(x, 3 - a, 3 - b, m) {
        GramAtEdge(x, m, a, b);
      }
      forall i, j | 0 < i < TAPS && 0 < j < TAPS
        ensures SameEdge(x, m, 4 - i, 4 - j) <==> Gram(x, i, j, m) == Gram(x, i - 1, j - 1, m)
      {
        GramAtEdge(x, m, 4 - i, 4 - j);
      }
    } else {
      NoGram(x);
    }
  }

  lemma NoGram(x: seq<Complex>)
    ensures forall i, j :: 0 <= i < TAPS && 0 <= j < TAPS ==> Gram(x, i, j, 0) == ZERO
  {
  }

  lemma GramAtEdge(x: seq<Complex>, m: nat, a: nat, b: nat)
    requires a < 4 && b < 4 && m > 0 && |x| == m + 4
    ensures SameEdge(x, m, a, b) <==> Gram(x, 4 - a, 4 - b, m) == Gram(x, 3 - a, 3 - b, m)
  {
    hide Mul, Conj, Sub, Gram;
    GramShift(x, 4 - a, 4 - b, m);
    SubIsZero(Gram(x, 4 - a, 4 - b, m), Gram(x, 3 - a, 3 - b, m));
    SubIsZero(Mul(x[a], Conj(x[b])), Mul(x[m + a], Conj(x[m + b])));
  }

  /** Entry (i, j) of a Gram matrix with constant diagonals depends on j - i alone. */
  lemma {:induction false} AlongDiagonal(x: seq<Complex>, i: nat, j: nat)
    requires i < TAPS && j < TAPS && IsConstantAlong(x)
    ensures var m := ValidPositions(x);
      Gram(x, i, j, m) == if i <= j then Gram(x, 0, j - i, m) else Gram(x, i - j, 0, m)
    decreases i
  {
    hide Gram;
    if i > 0 && j > 0 { AlongDiagonal(x, i - 1, j - 1); }
  }

  /** The equalizer's matrix is the exact one if and only if the edges of the stride agree. */
  lemma ToeplitzExactlyWhenEdgesAgree(x: seq<Complex>)
    ensures NormalMatrix(x) == ExactMatrix(x) <==> EdgesAgree(x)
  {
    hide Gram, AutoCorrelation, EdgesAgree, Add, Conj;
    var m, a, e := ValidPositions(x), NormalMatrix(x), ExactMatrix(x);
    ConstantExactlyWhenEdgesAgree(x);
    if EdgesAgree(x) {
      forall i, j | 0 <= i < TAPS && 0 <= j < TAPS ensures a[i][j] == e[i][j] { EntryIsExact(x, i, j); }
      forall i | 0 <= i < TAPS ensures a[i] == e[i] { }
    }
    if a == e {
      forall i, j | 0 < i < TAPS && 0 < j < TAPS ensures Gram(x, i, j, m) == Gram(x, i - 1, j - 1, m) {
        assert a[i][j] == Loaded(AutoCorrelations(x), i, j) && a[i - 1][j - 1] == a[i][j];
        CancelLoading(Gram(x, i, j, m), Gram(x, i - 1, j - 1, m), if i == j then LOADING else ZERO);
      }
    }
  }

  lemma CancelLoading(g: Complex, h: Complex, l: Complex)
    requires Add(g, l) == Add(h, l)
    ensures g == h
  {
  }

  lemma EntryIsExact(x: seq<Complex>, i: nat, j: nat)
    requires i < TAPS && j < TAPS && IsConstantAlong(x)
    ensures Loaded(AutoCorrelations(x), i, j) == Add(Gram(x, i, j, ValidPositions(x)), if i == j then LOADING else ZERO)
  {
    hide Gram, AutoCorrelation, Add, Conj;
    var m := ValidPositions(x);
    AlongDiagonal(x, i, j);
    AddZero(Gram(x, i, j, m));
    if i <= j {
      GramOfNewest(x, j - i, m);
    } else {
      GramOfNewest(x, i - j, m);
      GramIsHermitian(x, 0, i - j, m);
    }
  }

  // ---- the least error ----

  /** What _apply_ls_filter leaves: zeros until the delay line is filled, then the outputs. */
  function Filtered(x: seq<Complex>, w: seq<Complex>): (y: seq<Complex>)
    requires |w| == TAPS
    ensures |y| == |x| && forall t :: 0 <= t < |x| ==> y[t] == if t < 4 then ZERO else Output(x, w, t - 4)
  {
    seq(|x|, t requires 0 <= t < |x| => if t < 4 then ZERO else Output(x, w, t - 4))
  }

  function SquareSum(w: seq<Complex>, k: nat): (s: real)
    requires k <= |w|
    ensures s >= 0.0
  {
    if k == 0 then 0.0 else SquareSum(w, k - 1) + Power(w[k - 1])
  }

  /** The error of the filter w over the stride, and 1e-6 times its squared length. */
  function Loss(x: seq<Complex>, d: seq<Complex>, w: seq<Complex>): real
    requires |w| == TAPS && |x| <= |d|
  {
    ErrorEnergy(x, d, w, ValidPositions(x)) + 0.000001 * SquareSum(w, TAPS)
  }

  ghost predicate IsLeast(x: seq<Complex>, d: seq<Complex>, w: seq<Complex>)
    requires |w| == TAPS && |x| <= |d|
  {
    forall u: seq<Complex> :: |u| == TAPS && u != w ==> Loss(x, d, w) < Loss(x, d, u)
  }

  function Moved(w: seq<Complex>, v: seq<Complex>): (u: seq<Complex>)
    requires |w| == |v|
    ensures |u| == |w| && forall k :: 0 <= k < |w| ==> u[k] == Add(w[k], v[k])
  {
    seq(|w|, k requires 0 <= k < |w| => Add(w[k], v[k]))
  }

  /** Half the slope of the loss at w: the cross correlations with what w leaves of d, less 1e-6 w. */
  function Slope(x: seq<Complex>, d: seq<Complex>, w: seq<Complex>): (g: seq<Complex>)
    requires |w| == TAPS && |x| <= |d|
    ensures |g| == TAPS
    ensures forall k :: 0 <= k < TAPS ==> g[k] == SlopeEntry(x, d, w, k)
  {
    seq(TAPS, k requires 0 <= k < TAPS => SlopeEntry(x, d, w, k))
  }

  function SlopeEntry(x: seq<Complex>, d: seq<Complex>, w: seq<Complex>, k: nat): Complex
    requires |w| == TAPS && |x| <= |d| && k < TAPS
  {
    var m := ValidPositions(x);
    Sub(CrossCorrelation(x, d, k, m), Add(CrossCorrelation(x, Filtered(x, w), k, m), Mul(LOADING, w[k])))
  }

  /** How the loss curves along v. */
  function Curvature(x: seq<Complex>, v: seq<Complex>): (c: real)
    requires |v| == TAPS
    ensures c >= 0.0
  {
    OutputEnergy(x, v, ValidPositions(x)) + 0.000001 * SquareSum(v, TAPS)
  }

  lemma OutputOfMoved(x: seq<Complex>, w: seq<Complex>, v: seq<Complex>, n: nat)
    requires n + TAPS <= |x| && |w| == |v| == TAPS
    ensures Output(x, Moved(w, v), n) == Add(Output(x, w, n), Output(x, v, n))
  {
    hide Mul, Add, Conj, Sum;
    var t := Line(x, n);
    forall k | 0 <= k < TAPS ensures Conjs(Moved(w, v))[k] == Add(Conjs(w)[k], Conjs(v)[k]) { ConjOfSum(w[k], v[k]); }
    SumCommutes(Conjs(Moved(w, v)), t, TAPS); SumCommutes(Conjs(w), t, TAPS); SumCommutes(Conjs(v), t, TAPS);
    SumPlus(t, Conjs(w), Conjs(v), Conjs(Moved(w, v)), TAPS);
  }

  lemma {:induction false} EnergyOfMoved(x: seq<Complex>, w: seq<Complex>, v: seq<Complex>, m: nat)
    requires |w| == |v| == TAPS && (m > 0 ==> m + 4 <= |x|)
    ensures OutputEnergy(x, Moved(w, v), m)
         == OutputEnergy(x, w, m) + OutputEnergy(x, v, m) + 2.0 * Inner(v, CrossVector(x, Filtered(x, w), m)).re
  {
    hide Output, Power, Inner, Mul, Conj, Add;
    if m == 0 {
      InnerNothing(v, CrossVector(x, Filtered(x, w), 0));
    } else {
      EnergyOfMoved(x, w, v, m - 1);
      OutputOfMoved(x, w, v, m - 1);
      CrossStep(x, Filtered(x, w), v, m);
      var a, b := Output(x, w, m - 1), Output(x, v, m - 1);
      assert Filtered(x, w)[m + 3] == a;
      PowerOfTwo(a, b);
      MulCommutes(Conj(a), b);
      RealOfSum(Inner(v, CrossVector(x, Filtered(x, w), m - 1)), Mul(b, Conj(a)));
    }
  }

  lemma RealOfSum(x: Complex, y: Complex)
    ensures Add(x, y).re == x.re + y.re && Sub(x, y).re == x.re - y.re
  {
  }

  lemma {:induction false} SquareSumOfMoved(w: seq<Complex>, v: seq<Complex>, k: nat)
    requires |w| == |v| && k <= |w|
    ensures SquareSum(Moved(w, v), k) == SquareSum(w, k) + SquareSum(v, k) + 2.0 * Sum(Conjs(v), w, k).re
  {
    hide Power, Mul, Conj, Add;
    if k > 0 {
      SquareSumOfMoved(w, v, k - 1);
      PowerOfTwo(w[k - 1], v[k - 1]);
      ConjOfProduct(Conj(w[k - 1]), v[k - 1]); ConjOfSum(w[k - 1], v[k - 1]);
      MulCommutes(Conj(v[k - 1]), w[k - 1]);
      RealOfConj(Mul(Conj(w[k - 1]), v[k - 1]));
      RealOfSum(Sum(Conjs(v), w, k - 1), Mul(Conj(v[k - 1]), w[k - 1]));
    }
  }

  lemma RealOfConj(x: Complex)
    ensures Conj(x).re == x.re
  {
  }

  /** v^H (p - c - l w), term by term. */
  lemma {:induction false} SumOfSlope(u: seq<Complex>, g: seq<Complex>, p: seq<Complex>, c: seq<Complex>, w: seq<Complex>, k: nat)
    requires |u| == |g| == |p| == |c| == |w| && k <= |u|
    requires forall j :: 0 <= j < |u| ==> g[j] == Sub(p[j], Add(c[j], Mul(LOADING, w[j])))
    ensures Sum(u, g, k).re == Sum(u, p, k).re - Sum(u, c, k).re - 0.000001 * Sum(u, w, k).re
  {
    hide Mul, Add, Sub;
    if k > 0 {
      SumOfSlope(u, g, p, c, w, k - 1);
      var a, q, r, s := u[k - 1], p[k - 1], c[k - 1], w[k - 1];
      MulSub(a, q, Add(r, Mul(LOADING, s)));
      MulAdd(a, r, Mul(LOADING, s));
      MulSwap(a, LOADING, s);
      RealOfLoading(Mul(a, s));
      RealOfSum(Mul(a, r), Mul(LOADING, Mul(a, s)));
      RealOfSum(Mul(a, q), Add(Mul(a, r), Mul(LOADING, Mul(a, s))));
      RealOfSum(Sum(u, g, k - 1), Mul(a, g[k - 1]));
      RealOfSum(Sum(u, p, k - 1), Mul(a, q));
      RealOfSum(Sum(u, c, k - 1), Mul(a, r));
      RealOfSum(Sum(u, w, k - 1), Mul(a, s));
      Distribute(0.000001, Sum(u, w, k - 1).re, Mul(a, s).re);
    } else {
      RealOfNothing();
    }
  }

  lemma RealOfNothing()
    ensures ZERO.re == 0.0
  {
  }

  lemma RealOfLoading(x: Complex)
    ensures Mul(LOADING, x).re == 0.000001 * x.re
  {
  }

  /** The loss is a parabola in every direction. */
  lemma LossOfMoved(x: seq<Complex>, d: seq<Complex>, w: seq<Complex>, v: seq<Complex>)
    requires |w| == |v| == TAPS && |x| <= |d|
    ensures Loss(x, d, Moved(w, v)) == Loss(x, d, w) + Curvature(x, v) - 2.0 * Inner(v, Slope(x, d, w)).re
  {
    var m := ValidPositions(x);
    var u, p, c := Moved(w, v), CrossVector(x, d, m), CrossVector(x, Filtered(x, w), m);
    ErrorExpands(x, d, u, m);
    ErrorExpands(x, d, w, m);
    EnergyOfMoved(x, w, v, m);
    SquareSumOfMoved(w, v, TAPS);
    hide Sum, CrossCorrelation, Power, Mul, Add, Conj, Output, ErrorEnergy, OutputEnergy, SquareSum, ReferenceEnergy;
    SumOfSlope(Conjs(v), Slope(x, d, w), p, c, w, TAPS);
    InnerOfMoved(w, v, p);
    Distribute(0.000001, SquareSum(w, TAPS) + SquareSum(v, TAPS), 2.0 * Sum(Conjs(v), w, TAPS).re);
    Distribute(0.000001, SquareSum(w, TAPS), SquareSum(v, TAPS));
  }

  lemma InnerOfMoved(w: seq<Complex>, v: seq<Complex>, p: seq<Complex>)
    requires |w| == |v| == |p|
    ensures Inner(Moved(w, v), p).re == Inner(w, p).re + Inner(v, p).re
  {
    hide Mul, Add, Conj, Sum;
    forall k | 0 <= k < |w| ensures Conjs(Moved(w, v))[k] == Add(Conjs(w)[k], Conjs(v)[k]) { ConjOfSum(w[k], v[k]); }
    SumCommutes(Conjs(Moved(w, v)), p, |p|); SumCommutes(Conjs(w), p, |p|); SumCommutes(Conjs(v), p, |p|);
    SumPlus(p, Conjs(w), Conjs(v), Conjs(Moved(w, v)), |p|);
    RealOfSum(Inner(w, p), Inner(v, p));
  }

  // ---- the normal equations ----

  function GramRow(x: seq<Complex>, i: nat, m: nat): (row: Row)
    requires i < TAPS && (m > 0 ==> m + 4 <= |x|)
    ensures |row| == TAPS && forall j :: 0 <= j < TAPS ==> row[j] == Gram(x, i, j, m)
  {
    seq(TAPS, j requires 0 <= j < TAPS => Gram(x, i, j, m))
  }

  lemma ConjOfOutput(x: seq<Complex>, w: seq<Complex>, n: nat)
    requires n + TAPS <= |x| && |w| == TAPS
    ensures Conj(Output(x, w, n)) == Sum(Conjs(Line(x, n)), w, TAPS)
  {
    hide Mul, Add, Conj, Sum;
    var t := Line(x, n);
    ConjSum(Conjs(w), t, TAPS);
    forall k | 0 <= k < TAPS ensures Conjs(Conjs(w))[k] == w[k] { ConjOfSum(w[k], w[k]); }
    assert Conjs(Conjs(w)) == w;
    SumCommutes(w, Conjs(t), TAPS);
  }

  /** Row i of the Gram matrix times w: the cross correlation with the output of w. */
  lemma {:induction false} GramTimes(x: seq<Complex>, w: seq<Complex>, i: nat, m: nat)
    requires |w| == TAPS && i < TAPS && (m > 0 ==> m + 4 <= |x|)
    ensures CrossCorrelation(x, Filtered(x, w), i, m) == Sum(GramRow(x, i, m), w, TAPS)
  {
    hide Mul, Add, Conj, Sum, Output;
    if m == 0 {
      SumOfZeros(GramRow(x, i, 0), w, TAPS);
    } else {
      GramTimes(x, w, i, m - 1);
      var t := Line(x, m - 1);
      ConjOfOutput(x, w, m - 1);
      assert Filtered(x, w)[m + 3] == Output(x, w, m - 1);
      SumIsLinear(GramRow(x, i, m), GramRow(x, i, m - 1), x[m + 3 - i], Conjs(t), w, TAPS);
    }
  }

  function Unit(i: nat): (u: seq<Complex>)
    ensures |u| == TAPS && forall c :: 0 <= c < TAPS ==> u[c] == if i == c then ONE else ZERO
  {
    seq(TAPS, c => if i == c then ONE else ZERO)
  }

  lemma ExactTimes(x: seq<Complex>, w: seq<Complex>, i: nat)
    requires |w| == TAPS && i < TAPS
    ensures Sum(ExactMatrix(x)[i], w, TAPS)
         == Add(CrossCorrelation(x, Filtered(x, w), i, ValidPositions(x)), Mul(LOADING, w[i]))
  {
    hide Mul, Add, Sum, Output, Gram;
    var m := ValidPositions(x);
    GramTimes(x, w, i, m);
    MulOne(LOADING); MulZero(LOADING);
    SumIsLinear(ExactMatrix(x)[i], GramRow(x, i, m), LOADING, Unit(i), w, TAPS);
    SumOfUnit(Unit(i), w, i, TAPS);
  }

  /** The slope vanishes exactly at the solution of the exact normal equations. */
  lemma FlatExactlyAtSolution(x: seq<Complex>, d: seq<Complex>, w: seq<Complex>)
    requires |w| == TAPS && |x| <= |d|
    ensures Solves(ExactMatrix(x), TAPS, w, CrossCorrelations(x, d)) <==> forall k :: 0 <= k < TAPS ==> Slope(x, d, w)[k] == ZERO
  {
    hide Sum, CrossCorrelation, Mul, Add, Sub;
    var m := ValidPositions(x);
    forall k | 0 <= k < TAPS ensures Slope(x, d, w)[k] == ZERO <==> Sum(ExactMatrix(x)[k], w, TAPS) == CrossCorrelations(x, d)[k] {
      ExactTimes(x, w, k);
      SubIsZero(CrossCorrelation(x, d, k, m), Sum(ExactMatrix(x)[k], w, TAPS));
    }
  }

  lemma {:induction false} SquareSumIsInner(w: seq<Complex>, k: nat)
    requires k <= |w|
    ensures Sum(Conjs(w), w, k).re == SquareSum(w, k)
  {
    hide Power, Mul, Conj, Add;
    if k > 0 {
      SquareSumIsInner(w, k - 1);
      MulCommutes(Conj(w[k - 1]), w[k - 1]);
      MulConj(w[k - 1]);
      RealOfSum(Sum(Conjs(w), w, k - 1), Mul(Conj(w[k - 1]), w[k - 1]));
    }
  }

  lemma {:induction false} SquareSumPositive(w: seq<Complex>, k: nat, j: nat)
    requires j < k <= |w| && w[j] != ZERO
    ensures SquareSum(w, k) > 0.0
  {
    hide Power;
    PowerPositive(w[k - 1]);
    if j < k - 1 { SquareSumPositive(w, k - 1, j); }
  }

  function Shrunk(t: real, g: seq<Complex>): (v: seq<Complex>)
    ensures |v| == |g| && forall k :: 0 <= k < |g| ==> v[k] == Scale(t, g[k])
  {
    seq(|g|, k requires 0 <= k < |g| => Scale(t, g[k]))
  }

  lemma ConjOfScale(t: real, x: Complex)
    ensures Conj(Scale(t, x)) == Mul(Conj(x), C(t, 0.0))
  {
  }

  lemma InnerOfShrunk(t: real, g: seq<Complex>, p: seq<Complex>)
    requires |g| == |p|
    ensures Inner(Shrunk(t, g), p) == Mul(C(t, 0.0), Inner(g, p))
  {
    hide Mul, Conj, Scale, Sum;
    forall k | 0 <= k < |g| ensures Conjs(Shrunk(t, g))[k] == Mul(Conjs(g)[k], C(t, 0.0)) { ConjOfScale(t, g[k]); }
    SumScales(Conjs(Shrunk(t, g)), Conjs(g), C(t, 0.0), p, |p|);
  }

  lemma PowerOfReal(t: real, y: Complex)
    ensures Power(Mul(C(t, 0.0), y)) == t * t * Power(y)
    ensures Power(Scale(t, y)) == t * t * Power(y)
    ensures Mul(C(t, 0.0), y).re == t * y.re
  {
    PowerScale(t, y);
    MulReal(y, t);
    MulCommutes(y, C(t, 0.0));
  }

  lemma {:induction false} EnergyOfShrunk(x: seq<Complex>, t: real, g: seq<Complex>, m: nat)
    requires |g| == TAPS && (m > 0 ==> m + 4 <= |x|)
    ensures OutputEnergy(x, Shrunk(t, g), m) == t * t * OutputEnergy(x, g, m)
  {
    hide Power, Mul;
    if m > 0 {
      EnergyOfShrunk(x, t, g, m - 1);
      InnerOfShrunk(t, g, Line(x, m - 1));
      PowerOfReal(t, Output(x, g, m - 1));
      Distribute(t * t, OutputEnergy(x, g, m - 1), Power(Output(x, g, m - 1)));
    }
  }

  lemma {:induction false} SquareSumOfShrunk(t: real, g: seq<Complex>, k: nat)
    requires k <= |g|
    ensures SquareSum(Shrunk(t, g), k) == t * t * SquareSum(g, k)
  {
    hide Power;
    if k > 0 {
      SquareSumOfShrunk(t, g, k - 1);
      PowerOfReal(t, g[k - 1]);
      Distribute(t * t, SquareSum(g, k - 1), Power(g[k - 1]));
    }
  }

  lemma CurvatureOfShrunk(x: seq<Complex>, t: real, g: seq<Complex>)
    requires |g| == TAPS
    ensures Curvature(x, Shrunk(t, g)) == t * t * Curvature(x, g)
  {
    hide OutputEnergy, SquareSum;
    var m := ValidPositions(x);
    EnergyOfShrunk(x, t, g, m);
    SquareSumOfShrunk(t, g, TAPS);
    Distribute(t * t, OutputEnergy(x, g, m), 0.000001 * SquareSum(g, TAPS));
    Regroup(t * t, 0.000001, SquareSum(g, TAPS));
  }

  /** With t = n / c, a rise of t t c less a fall of 2 t n is a fall. */
  lemma DownhillStep(c: real, n: real, t: real, rise: real, fall: real)
    requires c > 0.0 && n > 0.0 && t == n / c && rise == t * t * c && fall == t * n
    ensures rise - 2.0 * fall < 0.0
  {
    assert t * c == n;
    Regroup(t, t, c);
    assert t * (t * c) == t * n;
    assert t > 0.0;
    ProductPositive(t, n);
  }

  /** Off the solution, a step along the slope lowers the loss. */
  lemma Downhill(x: seq<Complex>, d: seq<Complex>, w: seq<Complex>, k: nat) returns (u: seq<Complex>)
    requires |w| == TAPS && |x| <= |d| && k < TAPS && Slope(x, d, w)[k] != ZERO
    ensures |u| == TAPS && Loss(x, d, u) < Loss(x, d, w)
  {
    hide Loss, OutputEnergy, SlopeEntry, Inner, SquareSum, Mul;
    var g := Slope(x, d, w);
    SquareSumPositive(g, TAPS, k);
    SlopeSquared(g);
    var c, n := Curvature(x, g), SquareSum(g, TAPS);
    hide Curvature, Moved, Shrunk, Slope;
    var t := n / c;
    var v := Shrunk(t, g);
    u := Moved(w, v);
    LossOfMoved(x, d, w, v);
    CurvatureOfShrunk(x, t, g);
    InnerOfShrunk(t, g, g);
    PowerOfReal(t, Inner(g, g));
    DownhillStep(c, n, t, Curvature(x, v), Inner(v, g).re);
  }

  lemma SlopeSquared(g: seq<Complex>)
    requires |g| == TAPS
    ensures Inner(g, g).re == SquareSum(g, TAPS)
  {
    SquareSumIsInner(g, TAPS);
  }

  lemma Uphill(x: seq<Complex>, d: seq<Complex>, w: seq<Complex>, u: seq<Complex>)
    requires |w| == |u| == TAPS && |x| <= |d| && u != w
    requires forall k :: 0 <= k < TAPS ==> Slope(x, d, w)[k] == ZERO
    ensures Loss(x, d, w) < Loss(x, d, u)
  {
    hide Loss, OutputEnergy, SlopeEntry, Inner, SquareSum, Add, Sub;
    var v := seq(TAPS, k requires 0 <= k < TAPS => Sub(u[k], w[k]));
    forall k | 0 <= k < TAPS ensures Moved(w, v)[k] == u[k] { SubThenAdd(u[k], w[k]); }
    assert Moved(w, v) == u;
    var k :| 0 <= k < TAPS && u[k] != w[k];
    SubIsZero(u[k], w[k]);
    SquareSumPositive(v, TAPS, k);
    LossOfMoved(x, d, w, v);
    InnerNothing(v, Slope(x, d, w));
    RealOfNothing();
  }

  lemma SubThenAdd(x: Complex, y: Complex)
    ensures Add(y, Sub(x, y)) == x
  {
  }

  /** A filter has the least loss of all if and only if it solves the exact normal equations. */
  lemma LeastExactlyAtSolution(x: seq<Complex>, d: seq<Complex>, w: seq<Complex>)
    requires |w| == TAPS && |x| <= |d|
    ensures IsLeast(x, d, w) <==> Solves(ExactMatrix(x), TAPS, w, CrossCorrelations(x, d))
  {
    hide Loss, Solves, SlopeEntry;
    FlatExactlyAtSolution(x, d, w);
    if Solves(ExactMatrix(x), TAPS, w, CrossCorrelations(x, d)) {
      forall u: seq<Complex> | |u| == TAPS && u != w ensures Loss(x, d, w) < Loss(x, d, u) { Uphill(x, d, w, u); }
    } else {
      var k :| 0 <= k < TAPS && Slope(x, d, w)[k] != ZERO;
      var u := Downhill(x, d, w, k);
      assert u != w;
    }
  }

  // ---- when the equalizer finds the least error ----

  lemma {:induction false} EnergyIsInner(x: seq<Complex>, v: seq<Complex>, m: nat)
    requires |v| == TAPS && (m > 0 ==> m + 4 <= |x|)
    ensures Inner(v, CrossVector(x, Filtered(x, v), m)).re == OutputEnergy(x, v, m)
  {
    hide Output, Power, Inner, Mul, Conj, Add;
    if m == 0 {
      InnerNothing(v, CrossVector(x, Filtered(x, v), 0));
      RealOfNothing();
    } else {
      EnergyIsInner(x, v, m - 1);
      CrossStep(x, Filtered(x, v), v, m);
      var y := Output(x, v, m - 1);
      assert Filtered(x, v)[m + 3] == y;
      MulConj(y);
      RealOfSum(Inner(v, CrossVector(x, Filtered(x, v), m - 1)), Mul(y, Conj(y)));
    }
  }

  function ExactImage(x: seq<Complex>, v: seq<Complex>): (b: seq<Complex>)
    requires |v| == TAPS
    ensures |b| == TAPS && forall i :: 0 <= i < TAPS ==> b[i] == Sum(ExactMatrix(x)[i], v, TAPS)
  {
    seq(TAPS, i requires 0 <= i < TAPS => Sum(ExactMatrix(x)[i], v, TAPS))
  }

  /** v^H E v is the curvature along v, so at least 1e-6 |v|^2. */
  lemma ImageIsCurved(x: seq<Complex>, v: seq<Complex>)
    requires |v| == TAPS
    ensures Inner(v, ExactImage(x, v)).re == Curvature(x, v)
  {
    hide Sum, CrossCorrelation, Mul, Add, ExactMatrix, OutputEnergy, SquareSum, Conj, Output;
    var m := ValidPositions(x);
    var c, b := CrossVector(x, Filtered(x, v), m), ExactImage(x, v);
    var load := seq(TAPS, k requires 0 <= k < TAPS => Mul(v[k], LOADING));
    forall i | 0 <= i < TAPS ensures b[i] == Add(c[i], load[i]) { ExactTimes(x, v, i); MulCommutes(LOADING, v[i]); }
    SumPlus(Conjs(v), c, load, b, TAPS);
    SumTimes(Conjs(v), v, LOADING, load, TAPS);
    MulCommutes(Sum(Conjs(v), v, TAPS), LOADING);
    RealOfLoading(Sum(Conjs(v), v, TAPS));
    RealOfSum(Sum(Conjs(v), c, TAPS), Sum(Conjs(v), load, TAPS));
    EnergyIsInner(x, v, m);
    SlopeSquared(v);
  }

  lemma MovedSquare(b: seq<Complex>, v: seq<Complex>, l: real)
    requires |b| == |v| == TAPS
    ensures SquareSum(Moved(b, Shrunk(l, v)), TAPS) == SquareSum(b, TAPS) + l * l * SquareSum(v, TAPS) + 2.0 * (l * Inner(v, b).re)
  {
    hide Sum, SquareSum, Inner, Mul;
    SquareSumOfMoved(b, Shrunk(l, v), TAPS);
    SquareSumOfShrunk(l, v, TAPS);
    InnerIsSum(Shrunk(l, v), b);
    InnerOfShrunk(l, v, b);
    PowerOfReal(l, Inner(v, b));
  }

  /** |E v|^2 >= 1e-12 |v|^2. */
  lemma ImageIsLarge(x: seq<Complex>, v: seq<Complex>)
    requires |v| == TAPS
    ensures SquareSum(ExactImage(x, v), TAPS) >= 0.000000000001 * SquareSum(v, TAPS)
  {
    hide Sum, SquareSum, OutputEnergy, Inner, ExactImage, Moved, Shrunk;
    var b, l := ExactImage(x, v), -0.000001;
    ImageIsCurved(x, v);
    MovedSquare(b, v, l);
    LargeArithmetic(SquareSum(b, TAPS), SquareSum(v, TAPS), OutputEnergy(x, v, ValidPositions(x)), SquareSum(Moved(b, Shrunk(l, v)), TAPS));
  }

  lemma LargeArithmetic(b: real, s: real, e: real, moved: real)
    requires moved == b + 0.000000000001 * s - 2.0 * (0.000001 * (e + 0.000001 * s)) && moved >= 0.0 && e >= 0.0
    ensures b >= 0.000000000001 * s
  {
  }

  lemma InnerIsSum(u: seq<Complex>, v: seq<Complex>)
    requires |u| == |v| == TAPS
    ensures Inner(u, v) == Sum(Conjs(u), v, TAPS)
  {
  }

  lemma {:induction false} TinySum(b: seq<Complex>, k: nat)
    requires k <= |b| && forall r :: 0 <= r < |b| ==> IsTiny(b[r])
    ensures SquareSum(b, k) <= k as real * TINY_POWER
  {
    if k > 0 { TinySum(b, k - 1); }
  }

  lemma {:induction false} SquareSumAtLeast(v: seq<Complex>, j: nat, k: nat)
    requires j < k <= |v|
    ensures SquareSum(v, k) >= Power(v[j])
  {
    hide Power;
    if j < k - 1 { SquareSumAtLeast(v, j, k - 1); }
  }

  /** Whatever the stride, its exact normal matrix never takes the guard. */
  lemma ExactMatrixNeedsNoGuard(x: seq<Complex>)
    ensures !TakesGuard(ExactMatrix(x), TAPS)
  {
    hide Sum, SquareSum, IsTiny, ExactMatrix, TakesGuard;
    if TakesGuard(ExactMatrix(x), TAPS) {
      var v, j := GuardMeansNearlySingular(ExactMatrix(x), TAPS);
      TinySum(ExactImage(x, v), TAPS);
      SquareSumAtLeast(v, j, TAPS);
      PowerOfUnit();
      ImageIsLarge(x, v);
      assert false;
    }
  }

  lemma PowerOfUnit()
    ensures Power(ONE) == 1.0
  {
  }

  /** On strides whose edges agree, equalize_stride does what it is said to: no pivot is tiny, and
      no other filter has as small a loss, for any reference. */
  lemma AgreeingEdgesGiveTheLeast(x: seq<Complex>, d: seq<Complex>, w: seq<Complex>)
    requires |w| == TAPS && |x| <= |d| && EdgesAgree(x)
    requires IsProduct(Inverse(NormalMatrix(x), TAPS), TAPS, w, CrossCorrelations(x, d))
    ensures !TakesGuard(NormalMatrix(x), TAPS) && IsLeast(x, d, w)
  {
    hide IsLeast, TakesGuard, IsProduct, Inverse, NormalMatrix, ExactMatrix, CrossCorrelations, Solves;
    ToeplitzExactlyWhenEdgesAgree(x);
    ExactMatrixNeedsNoGuard(x);
    ProductIsOnlySolution(NormalMatrix(x), w, CrossCorrelations(x, d));
    LeastExactlyAtSolution(x, d, w);
  }

  /** On any stride without a tiny pivot, the weights are the best exactly when they cannot tell the
      equalizer's matrix from the exact one. */
  lemma LeastExactlyWhenMatricesAgree(x: seq<Complex>, d: seq<Complex>, w: seq<Complex>)
    requires |w| == TAPS && |x| <= |d| && !TakesGuard(NormalMatrix(x), TAPS)
    requires IsProduct(Inverse(NormalMatrix(x), TAPS), TAPS, w, CrossCorrelations(x, d))
    ensures IsLeast(x, d, w) <==> forall r :: 0 <= r < TAPS ==> Sum(ExactMatrix(x)[r], w, TAPS) == Sum(NormalMatrix(x)[r], w, TAPS)
  {
    hide IsLeast, TakesGuard, IsProduct, Inverse, NormalMatrix, ExactMatrix, CrossCorrelations, Sum;
    ProductIsOnlySolution(NormalMatrix(x), w, CrossCorrelations(x, d));
    LeastExactlyAtSolution(x, d, w);
  }

  // ---- a stride whose edges do not agree ----

  /** A single sample v, last but one. */
  function Edge(v: real): (x: seq<Complex>)
    ensures |x| == TAPS
  {
    [ZERO, ZERO, ZERO, C(v, 0.0), ZERO]
  }

  const PULSE: seq<Complex> := [ZERO, ZERO, ZERO, ZERO, ONE]

  lemma EdgeCorrelations(v: real, k: nat)
    requires k < TAPS
    ensures AutoCorrelation(Edge(v), k, 1) == ZERO
    ensures CrossCorrelation(Edge(v), PULSE, k, 1) == if k == 1 then C(v, 0.0) else ZERO
  {
    assert AutoCorrelation(Edge(v), k, 0) == ZERO && CrossCorrelation(Edge(v), PULSE, k, 0) == ZERO;
  }

  lemma LoadedNothing(r: seq<Complex>)
    requires |r| == TAPS && forall k :: 0 <= k < TAPS ==> r[k] == ZERO
    ensures forall i, j :: 0 <= i < TAPS && 0 <= j < TAPS ==> Toeplitz(r)[i][j] == if i == j then LOADING else ZERO
    ensures PivotDominance.OutweighsItsLags(r)
  {
    forall i, j | 0 <= i < TAPS && 0 <= j < TAPS ensures Toeplitz(r)[i][j] == if i == j then LOADING else ZERO {
      assert Toeplitz(r)[i][j] == Loaded(r, i, j);
    }
  }

  lemma EdgeIsUncorrelated(v: real)
    ensures forall k :: 0 <= k < TAPS ==> AutoCorrelations(Edge(v))[k] == ZERO
  {
    hide AutoCorrelation;
    forall k | 0 <= k < TAPS ensures AutoCorrelations(Edge(v))[k] == ZERO { EdgeCorrelations(v, k); }
  }

  lemma EdgeNeedsNoGuard(v: real)
    ensures !TakesGuard(NormalMatrix(Edge(v)), TAPS)
  {
    hide *;
    EdgeIsUncorrelated(v);
    LoadedNothing(AutoCorrelations(Edge(v)));
    PivotDominance.OutweighedLagsNeedNoGuard(Edge(v));
  }

  lemma EdgeMatrix(v: real)
    ensures forall i, j :: 0 <= i < TAPS && 0 <= j < TAPS ==> NormalMatrix(Edge(v))[i][j] == if i == j then LOADING else ZERO
  {
    var a := NormalMatrix(Edge(v));
    assert a == Toeplitz(AutoCorrelations(Edge(v)));
    hide *;
    EdgeIsUncorrelated(v);
    LoadedNothing(AutoCorrelations(Edge(v)));
  }

  function EdgeWeights(v: real): (w: seq<Complex>)
    ensures |w| == TAPS
  {
    [ZERO, C(1000000.0 * v, 0.0), ZERO, ZERO, ZERO]
  }

  lemma EdgeSolution(v: real)
    ensures Solves(NormalMatrix(Edge(v)), TAPS, EdgeWeights(v), CrossCorrelations(Edge(v), PULSE))
  {
    EdgeMatrix(v);
    hide Sum, CrossCorrelation, NormalMatrix, Mul;
    var w, a := EdgeWeights(v), NormalMatrix(Edge(v));
    MulOne(LOADING); MulZero(LOADING);
    MulCommutes(LOADING, ONE); MulCommutes(LOADING, ZERO);
    forall r: nat | r < TAPS ensures Sum(a[r], w, TAPS) == CrossCorrelation(Edge(v), PULSE, r, 1) {
      EdgeCorrelations(v, r);
      SumScales(a[r], Unit(r), LOADING, w, TAPS);
      SumOfUnit(Unit(r), w, r, TAPS);
      LoadedWeight(v);
    }
  }

  lemma LoadedWeight(v: real)
    ensures Mul(LOADING, C(1000000.0 * v, 0.0)) == C(v, 0.0)
  {
  }

  lemma OutputUnfolds(x: seq<Complex>, w: seq<Complex>, n: nat)
    requires n + TAPS <= |x| && |w| == TAPS
    ensures Output(x, w, n) == Add(Add(Add(Add(Mul(Conj(w[0]), x[n + 4]), Mul(Conj(w[1]), x[n + 3])),
              Mul(Conj(w[2]), x[n + 2])), Mul(Conj(w[3]), x[n + 1])), Mul(Conj(w[4]), x[n]))
  {
    hide Mul, Add, Conj;
    var c, t := Conjs(w), Line(x, n);
    assert Sum(c, t, 1) == Add(ZERO, Mul(c[0], t[0]));
    AddZero(Mul(c[0], t[0]));
    assert Output(x, w, n) == Sum(c, t, 5) == Add(Add(Sum(c, t, 3), Mul(c[3], t[3])), Mul(c[4], t[4]));
    assert Sum(c, t, 3) == Add(Add(Sum(c, t, 1), Mul(c[1], t[1])), Mul(c[2], t[2]));
  }

  lemma EdgeOutput(v: real, c: real)
    ensures Output(Edge(v), [ZERO, C(c, 0.0), ZERO, ZERO, ZERO], 0) == C(c * v, 0.0)
  {
    hide Mul, Conj;
    var w, x := [ZERO, C(c, 0.0), ZERO, ZERO, ZERO], Edge(v);
    OutputUnfolds(x, w, 0);
    MulZero(Conj(ZERO)); MulZero(Conj(w[1]));
    RealTimes(c, v);
    AddZero(ZERO); AddZero(C(c * v, 0.0));
  }

  lemma RealTimes(c: real, v: real)
    ensures Mul(Conj(C(c, 0.0)), C(v, 0.0)) == C(c * v, 0.0)
    ensures Power(Sub(ONE, C(c * v, 0.0))) == Square(1.0 - c * v)
    ensures Power(C(c, 0.0)) == c * c && Power(ZERO) == 0.0
  {
  }

  lemma EdgeLoss(v: real, c: real)
    ensures Loss(Edge(v), PULSE, [ZERO, C(c, 0.0), ZERO, ZERO, ZERO]) == Square(1.0 - c * v) + 0.000001 * (c * c)
  {
    hide Mul, Conj, Sub, Output, Power, Square;
    var w, x := [ZERO, C(c, 0.0), ZERO, ZERO, ZERO], Edge(v);
    EdgeOutput(v, c);
    RealTimes(c, v);
    assert ErrorEnergy(x, PULSE, w, 1) == ErrorEnergy(x, PULSE, w, 0) + Power(Sub(ONE, Output(x, w, 0)));
    assert SquareSum(w, 1) == 0.0;
    assert SquareSum(w, 3) == c * c;
    assert SquareSum(w, 5) == c * c;
  }

  /** One sample at the edge of a stride makes the equalizer worse than no filter at all, exactly
      when its power exceeds the loading. */
  lemma EdgeSampleRuinsTheError(v: real, w: seq<Complex>)
    requires |w| == TAPS && IsProduct(Inverse(NormalMatrix(Edge(v)), TAPS), TAPS, w, CrossCorrelations(Edge(v), PULSE))
    ensures w == EdgeWeights(v)
    ensures Loss(Edge(v), PULSE, w) > Loss(Edge(v), PULSE, Nothing(TAPS)) <==> v * v > 0.000001
  {
    hide Loss, Inverse, NormalMatrix, CrossCorrelations, Sum, TakesGuard;
    EdgeNeedsNoGuard(v);
    EdgeSolution(v);
    ProductIsOnlySolution(NormalMatrix(Edge(v)), w, CrossCorrelations(Edge(v), PULSE));
    EdgeLoss(v, 1000000.0 * v);
    EdgeLoss(v, 0.0);
    assert Nothing(TAPS) == [ZERO, C(0.0, 0.0), ZERO, ZERO, ZERO];
    EdgeArithmetic(v * v, 1000000.0 * v, v);
  }

  lemma EdgeArithmetic(p: real, c: real, v: real)
    requires p == v * v && c == 1000000.0 * v
    ensures Square(1.0 - c * v) + 0.000001 * (c * c) > Square(1.0 - 0.0 * v) + 0.000001 * (0.0 * 0.0) <==> p > 0.000001
  {
    assert c * v == 1000000.0 * p && c * c == 1000000000000.0 * p;
    SquareOfSum(1.0, 1000000.0 * p);
    var q := p - 0.000001;
    assert Square(1.0 - c * v) + 0.000001 * (c * c) - 1.0 == 1000000000000.0 * (p * q);
    assert p >= 0.0;
    if q > 0.0 { ProductPositive(p, q); } else { PivotDominance.TimesOrder(p, q, 0.0); }
  }

  // ---- the stride in place ----

  /** _apply_ls_filter for one channel. */
  method ApplyFilter(x: seq<Complex>, weights: seq<Complex>, y: array<Complex>)
    requires |weights| == TAPS && y.Length == |x| >= TAPS - 1
    modifies y
    ensures y[..] == Filtered(x, weights)
  {
    hide Mul, Add, Conj;
    for n := 0 to TAPS - 1
      invariant forall t :: 0 <= t < n ==> y[t] == ZERO
    {
      y[n] := ZERO;
    }
    var w0, w1, w2, w3, w4 := Conj(weights[0]), Conj(weights[1]), Conj(weights[2]), Conj(weights[3]), Conj(weights[4]);
    for n := TAPS - 1 to |x|
      invariant forall t :: 0 <= t < n ==> y[t] == Filtered(x, weights)[t]
    {
      OutputUnfolds(x, weights, n - 4);
      y[n] := Add(Add(Add(Add(Mul(w0, x[n]), Mul(w1, x[n - 1])), Mul(w2, x[n - 2])), Mul(w3, x[n - 3])), Mul(w4, x[n - 4]));
    }
  }

  /** equalize_stride for one channel. */
  method EqualizeChannel(x: seq<Complex>, d: seq<Complex>, weights: array<Complex>, y: array<Complex>) returns (guardTaken: bool)
    requires |x| <= |d| && weights.Length == TAPS && y.Length == |x| >= TAPS - 1 && weights != y
    modifies weights, y
    ensures guardTaken <==> TakesGuard(NormalMatrix(x), TAPS)
    ensures IsProduct(Inverse(NormalMatrix(x), TAPS), TAPS, weights[..], CrossCorrelations(x, d))
    ensures EdgesAgree(x) ==> !guardTaken && IsLeast(x, d, weights[..])
    ensures y[..] == Filtered(x, weights[..])
  {
    hide TakesGuard, Inverse, NormalMatrix, CrossCorrelations, IsLeast, EdgesAgree, IsProduct;
    guardTaken := ComputeWeights(x, d, weights);
    if EdgesAgree(x) { AgreeingEdgesGiveTheLeast(x, d, weights[..]); }
    ApplyFilter(x, weights[..], y);
  }
}
