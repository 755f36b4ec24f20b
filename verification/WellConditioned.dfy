/** cyclic_ls_equalizer.py, _invert_5x5_hermitian: only a matrix within the guard of being singular
    ever takes it, whatever rows were swapped on the way. */
module WellConditioned {
  import opened ComplexVectors
  import opened RowReduction
  import opened LinearSystems
  import opened Elimination

  function RowTimes(m: seq<Row>, n: nat, r: nat, v: seq<Complex>): Complex
    requires IsMatrix(m, n) && |v| == n && r < n
  {
    Sum(m[r][..n], v, n)
  }

  /** The first i rows are orthogonal to v and the others nearly so. */
  ghost predicate NearlyKills(m: seq<Row>, n: nat, i: nat, v: seq<Complex>)
    requires IsMatrix(m, n) && |v| == n && i <= n
  {
    && (forall r: nat :: r < i ==> RowTimes(m, n, r, v) == ZERO)
    && (forall r: nat :: i <= r < n ==> IsTiny(RowTimes(m, n, r, v)))
  }

  lemma ZeroIsTiny()
    ensures IsTiny(ZERO)
  {
  }

  lemma ScaledRowTimes(row: Row, f: Complex, n: nat, v: seq<Complex>)
    requires |row| == 2 * n && |v| == n
    ensures Sum(ScaleRow(f, row)[..n], v, n) == Mul(f, Sum(row[..n], v, n))
  {
    hide Mul, Sum;
    SumScales(ScaleRow(f, row)[..n], row[..n], f, v, n);
  }

  lemma SubtractedRowTimes(row: Row, f: Complex, pivot: Row, n: nat, v: seq<Complex>)
    requires |row| == |pivot| == 2 * n && |v| == n
    ensures Sum(SubtractRow(row, f, pivot)[..n], v, n) == Sub(Sum(row[..n], v, n), Mul(f, Sum(pivot[..n], v, n)))
  {
    hide Mul, Sub, Sum;
    SumSubtracts(SubtractRow(row, f, pivot)[..n], row[..n], f, pivot[..n], v, n);
  }

  /** What a forward column without a guard does to the product of each row with v. */
  lemma NextRowTimes(m: seq<Row>, n: nat, i: nat, r: nat, v: seq<Complex>)
    requires IsMatrix(m, n) && |v| == n && i < n && r < n && !IsTiny(Swapped(m, n, i)[i][i]) && Power(Swapped(m, n, i)[i][i]) != 0.0
    ensures var s, next := Swapped(m, n, i), NextColumn(m, n, i);
      RowTimes(next, n, r, v) ==
        if r < i then RowTimes(s, n, r, v)
        else if r == i then Mul(Reciprocal(s[i][i]), RowTimes(s, n, i, v))
        else Sub(RowTimes(s, n, r, v), Mul(s[r][i], RowTimes(next, n, i, v)))
  {
    hide Mul, Sub, Sum, Power, Reciprocal, IsTiny, BestRow, Swapped;
    var s := Swapped(m, n, i);
    assert Guarded(s, n, i) == s;
    var c := Scaled(s, n, i);
    ClearedRow(c, n, i, n, i);
    ClearedRow(c, n, i, n, r);
    if r == i { ScaledRowTimes(s[i], Reciprocal(s[i][i]), n, v); }
    if r > i { SubtractedRowTimes(s[r], s[r][i], c[i], n, v); }
  }

  lemma SwapKeepsSize(m: seq<Row>, n: nat, i: nat, v: seq<Complex>)
    requires IsMatrix(m, n) && |v| == n && i < n && NearlyKills(Swapped(m, n, i), n, i, v)
    ensures NearlyKills(m, n, i, v)
  {
    hide Sum, IsTiny;
    var s, p := Swapped(m, n, i), BestRow(m, n, i, n);
    forall r: nat | r < i ensures RowTimes(m, n, r, v) == ZERO {
      assert RowTimes(s, n, r, v) == ZERO;
    }
    forall r: nat | i <= r < n ensures IsTiny(RowTimes(m, n, r, v)) {
      var q := if r == i then p else if r == p then i else r;
      assert s[q] == m[r];
      assert IsTiny(RowTimes(s, n, q, v));
    }
  }

  lemma PivotRowIsKilled(m: seq<Row>, n: nat, i: nat, v: seq<Complex>)
    requires IsMatrix(m, n) && |v| == n && i < n && !IsTiny(Swapped(m, n, i)[i][i])
    requires RowTimes(NextColumn(m, n, i), n, i, v) == ZERO
    ensures RowTimes(Swapped(m, n, i), n, i, v) == ZERO
    ensures forall r: nat :: r < n && r != i ==> RowTimes(NextColumn(m, n, i), n, r, v) == RowTimes(Swapped(m, n, i), n, r, v)
  {
    var s, next := Swapped(m, n, i), NextColumn(m, n, i);
    assert Power(s[i][i]) != 0.0;
    hide Mul, Sub, Power, Reciprocal, IsTiny, Swapped, NextColumn, RowTimes;
    NextRowTimes(m, n, i, i, v);
    ReciprocalNonZero(s[i][i]);
    if RowTimes(s, n, i, v) != ZERO { ProductNonZero(Reciprocal(s[i][i]), RowTimes(s, n, i, v)); }
    forall r: nat | r < n && r != i ensures RowTimes(next, n, r, v) == RowTimes(s, n, r, v) {
      NextRowTimes(m, n, i, r, v);
      MulZero(s[r][i]);
      SubZero(RowTimes(s, n, r, v));
    }
  }

  /** What nearly kills v after a forward column nearly killed it before. */
  lemma ColumnKeepsSize(m: seq<Row>, n: nat, i: nat, v: seq<Complex>)
    requires IsMatrix(m, n) && |v| == n && i < n && !IsTiny(Swapped(m, n, i)[i][i])
    requires NearlyKills(NextColumn(m, n, i), n, i + 1, v)
    ensures NearlyKills(m, n, i, v)
  {
    hide IsTiny, Swapped, NextColumn, RowTimes;
    ZeroIsTiny();
    PivotRowIsKilled(m, n, i, v);
    SwapKeepsSize(m, n, i, v);
  }

  lemma {:induction false} BackToStart(a: seq<Row>, n: nat, i: nat, v: seq<Complex>)
    requires SquareMatrix(a, n) && |v| == n && i <= n && !GuardBefore(a, n, i) && NearlyKills(Before(a, n, i), n, i, v)
    ensures forall r :: 0 <= r < n ==> IsTiny(Sum(a[r], v, n))
  {
    hide NextColumn, IsTiny, Sum, Swapped;
    if i == 0 {
      forall r | 0 <= r < n ensures IsTiny(Sum(a[r], v, n)) {
        assert Before(a, n, 0)[r][..n] == a[r];
        assert IsTiny(RowTimes(Before(a, n, 0), n, r, v));
      }
    } else {
      assert !IsTiny(Pivot(a, n, i - 1));
      ColumnKeepsSize(Before(a, n, i - 1), n, i - 1, v);
      BackToStart(a, n, i - 1, v);
    }
  }

  // ---- a vector the reduced rows kill ----

  lemma {:induction false} SumOfUpdate(u: seq<Complex>, w: seq<Complex>, c: nat, x: Complex, k: nat)
    requires |u| == |w| && c < |w| && k <= |w| && w[c] == ZERO
    ensures Sum(u, w[c := x], k) == Add(Sum(u, w, k), if c < k then Mul(u[c], x) else ZERO)
  {
    hide Mul, Add;
    AddZero(Sum(u, w, k));
    if k > 0 {
      SumOfUpdate(u, w, c, x, k - 1);
      AddZero(Sum(u, w, k - 1));
      if c < k - 1 {
        AddSwap(Sum(u, w, k - 1), Mul(u[c], x), Mul(u[k - 1], w[k - 1]));
      } else if c == k - 1 {
        MulZero(u[c]);
      }
    }
  }

  lemma AddSwap(x: Complex, y: Complex, z: Complex)
    ensures Add(Add(x, y), z) == Add(Add(x, z), y)
  {
  }

  lemma {:induction false} SumOfOne(u: seq<Complex>, w: seq<Complex>, i: nat, k: nat)
    requires |u| == |w| && i < |w| && k <= |w| && w[i] == ONE
    requires forall c :: 0 <= c < |w| && c != i ==> u[c] == ZERO || w[c] == ZERO
    ensures Sum(u, w, k) == if i < k then u[i] else ZERO
  {
    hide Mul, Add;
    if k > 0 {
      SumOfOne(u, w, i, k - 1);
      var x, y := u[k - 1], w[k - 1];
      MulOne(x); MulZero(x); MulZero(y); MulCommutes(y, ZERO);
      AddZero(if i < k - 1 then u[i] else ZERO);
      AddZero(x);
    }
  }

  lemma AddNegated(x: Complex)
    ensures Add(x, Sub(ZERO, x)) == ZERO
  {
  }

  /** Back-substitution: a vector with a 1 at i, zeros beyond, that rows lo .. i-1 kill. */
  lemma {:induction false} BackSubstitute(m: seq<Row>, n: nat, i: nat, lo: nat) returns (v: seq<Complex>)
    requires IsMatrix(m, n) && i < n && lo <= i && Upper(m, n, i)
    ensures |v| == n && v[i] == ONE && forall c: nat :: c < lo || i < c < n ==> v[c] == ZERO
    ensures forall r: nat :: lo <= r < i ==> RowTimes(m, n, r, v) == ZERO
    decreases i - lo
  {
    hide Mul, Add, Sum, Sub;
    if lo == i {
      v := Nothing(n)[i := ONE];
    } else {
      var b := BackSubstitute(m, n, i, lo + 1);
      var x := Sub(ZERO, RowTimes(m, n, lo, b));
      v := b[lo := x];
      forall r: nat | lo <= r < i ensures RowTimes(m, n, r, v) == ZERO {
        SumOfUpdate(m[r][..n], b, lo, x, n);
        assert m[r][..n][lo] == if r == lo then ONE else ZERO;
        assert r != lo ==> RowTimes(m, n, r, b) == ZERO;
        if r == lo {
          MulOne(x); MulCommutes(x, ONE);
          AddNegated(RowTimes(m, n, lo, b));
        } else {
          MulZero(x); MulCommutes(x, ZERO);
          AddZero(ZERO);
        }
      }
    }
  }

  lemma SmallerIsTiny(x: Complex, y: Complex)
    requires Power(x) <= Power(y) && IsTiny(y)
    ensures IsTiny(x)
  {
  }

  lemma TinyColumn(m: seq<Row>, n: nat, i: nat) returns (v: seq<Complex>)
    requires IsMatrix(m, n) && i < n && Upper(m, n, i) && IsTiny(Swapped(m, n, i)[i][i])
    ensures |v| == n && v[i] == ONE && NearlyKills(m, n, i, v)
  {
    hide Sum, Power;
    v := BackSubstitute(m, n, i, 0);
    var b := BestRow(m, n, i, n);
    assert IsTiny(m[b][i]) by { assert Swapped(m, n, i)[i] == m[b]; }
    forall r: nat | i <= r < n ensures IsTiny(RowTimes(m, n, r, v)) {
      SumOfOne(m[r][..n], v, i, n);
      SmallerIsTiny(m[r][i], m[b][i]);
    }
  }

  lemma FirstTiny(a: seq<Row>, n: nat, k: nat) returns (i: nat)
    requires SquareMatrix(a, n) && k <= n && GuardBefore(a, n, k)
    ensures i < k && IsTiny(Pivot(a, n, i)) && !GuardBefore(a, n, i)
  {
    hide Pivot, IsTiny;
    if GuardBefore(a, n, k - 1) { i := FirstTiny(a, n, k - 1); } else { i := k - 1; }
  }

  /** If the guard is taken, some vector with an entry 1 has an image of entries all under 1e-12. */
  lemma GuardMeansNearlySingular(a: seq<Row>, n: nat) returns (v: seq<Complex>, j: nat)
    requires SquareMatrix(a, n) && TakesGuard(a, n)
    ensures |v| == n && j < n && v[j] == ONE
    ensures forall r :: 0 <= r < n ==> IsTiny(Sum(a[r], v, n))
  {
    hide Sum, IsTiny, Tracks, Swapped;
    assert GuardBefore(a, n, n);
    j := FirstTiny(a, n, n);
    var _ := ForwardTracks(a, n, j);
    v := TinyColumn(Before(a, n, j), n, j);
    BackToStart(a, n, j, v);
  }
}
