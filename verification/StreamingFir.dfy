/** group_delay_equalizer.py, _apply_adaptive_eq_inplace: the in-place FIR over a small circular
    buffer, with the last N-1 inputs carried from stride to stride. */
module StreamingFir {
  import opened Circular
  import ComplexVectors

  type Complex = ComplexVectors.Complex

  const ZERO := ComplexVectors.ZERO

  // ---- direct convolution ----

  /** Sum of h[j] * full[i + N-1 - j] over the first k taps. */
  function Convolve(full: seq<Complex>, h: seq<real>, i: nat, k: nat): Complex
    requires 0 < |h| && i + |h| <= |full| && k <= |h|
  {
    if k == 0 then ZERO
    else ComplexVectors.Add(Convolve(full, h, i, k - 1), ComplexVectors.Scale(h[k - 1], full[i + |h| - k]))
  }

  /** What one stride becomes, given the N-1 inputs before it. */
  function Output(h: seq<real>, history: seq<Complex>, stride: seq<Complex>): (out: seq<Complex>)
    requires |h| > 0 && |history| == |h| - 1
    ensures |out| == |stride|
  {
    seq(|stride|, i requires 0 <= i < |stride| => Convolve(history + stride, h, i, |h|))
  }

  /** The last N-1 inputs. */
  function NextHistory(history: seq<Complex>, stride: seq<Complex>): (next: seq<Complex>)
    ensures |next| == |history|
  {
    (history + stride)[|stride|..]
  }

  /** A stream cut into strides, processed one after the other. */
  function Run(h: seq<real>, history: seq<Complex>, strides: seq<seq<Complex>>): (r: (seq<Complex>, seq<Complex>))
    requires |h| > 0 && |history| == |h| - 1
    ensures |r.1| == |history|
    decreases |strides|
  {
    if |strides| == 0 then ([], history)
    else
      var rest := Run(h, NextHistory(history, strides[0]), strides[1..]);
      (Output(h, history, strides[0]) + rest.0, rest.1)
  }

  function Joined(strides: seq<seq<Complex>>): seq<Complex> {
    if |strides| == 0 then [] else strides[0] + Joined(strides[1..])
  }

  // ---- stride independence ----

  lemma {:induction false} ConvolveShift(full: seq<Complex>, h: seq<real>, d: nat, i: nat, k: nat)
    requires 0 < |h| && d + i + |h| <= |full| && k <= |h|
    ensures Convolve(full[d..], h, i, k) == Convolve(full, h, d + i, k)
  {
    if k > 0 { ConvolveShift(full, h, d, i, k - 1); }
  }

  lemma {:induction false} ConvolvePrefix(full: seq<Complex>, more: seq<Complex>, h: seq<real>, i: nat, k: nat)
    requires 0 < |h| && i + |h| <= |full| && k <= |h|
    ensures Convolve(full + more, h, i, k) == Convolve(full, h, i, k)
  {
    if k > 0 { ConvolvePrefix(full, more, h, i, k - 1); }
  }

  /** Processing A and then B is processing A ++ B, whatever their lengths. */
  lemma StridesCompose(h: seq<real>, history: seq<Complex>, a: seq<Complex>, b: seq<Complex>)
    requires |h| > 0 && |history| == |h| - 1
    ensures Output(h, history, a + b) == Output(h, history, a) + Output(h, NextHistory(history, a), b)
    ensures NextHistory(history, a + b) == NextHistory(NextHistory(history, a), b)
  {
    var full := history + (a + b);
    assert full == history + a + b;
    assert NextHistory(history, a) + b == full[|a|..];
    forall i | 0 <= i < |a + b|
      ensures Output(h, history, a + b)[i] == (Output(h, history, a) + Output(h, NextHistory(history, a), b))[i]
    {
      if i < |a| {
        ConvolvePrefix(history + a, b, h, i, |h|);
      } else {
        ConvolveShift(full, h, |a|, i - |a|, |h|);
      }
    }
  }

  /** However a stream is cut, outputs and final history are those of the uncut stream. */
  lemma {:induction false} CuttingDoesNotMatter(h: seq<real>, history: seq<Complex>, strides: seq<seq<Complex>>)
    requires |h| > 0 && |history| == |h| - 1
    ensures Run(h, history, strides) == (Output(h, history, Joined(strides)), NextHistory(history, Joined(strides)))
    decreases |strides|
  {
    if |strides| == 0 {
      assert Joined(strides) == [];
      assert Output(h, history, []) == [];
      assert history + [] == history;
    } else {
      CuttingDoesNotMatter(h, NextHistory(history, strides[0]), strides[1..]);
      StridesCompose(h, history, strides[0], Joined(strides[1..]));
    }
  }

  // ---- what a stride becomes ----

  /** A single sample z at place p. */
  function Impulse(z: Complex, p: nat, n: nat): (x: seq<Complex>)
    ensures |x| == n && forall i :: 0 <= i < n ==> x[i] == if i == p then z else ZERO
  {
    seq(n, i => if i == p then z else ZERO)
  }

  function Silence(n: nat): (x: seq<Complex>)
    ensures |x| == n && forall i :: 0 <= i < n ==> x[i] == ZERO
  {
    seq(n, _ => ZERO)
  }

  lemma ScaledZero(k: real)
    ensures ComplexVectors.Scale(k, ZERO) == ZERO
  {
  }

  lemma AddZero(z: Complex)
    ensures ComplexVectors.Add(z, ZERO) == z && ComplexVectors.Add(ZERO, z) == z
  {
  }

  lemma {:induction false} ConvolveImpulse(full: seq<Complex>, h: seq<real>, z: Complex, p: nat, i: nat, k: nat)
    requires 0 < |h| && i + |h| <= |full| && k <= |h|
    requires forall a :: 0 <= a < |full| ==> full[a] == if a == p + |h| - 1 then z else ZERO
    ensures Convolve(full, h, i, k) == if p <= i < p + k then ComplexVectors.Scale(h[i - p], z) else ZERO
  {
    hide ComplexVectors.Scale, ComplexVectors.Add;
    if k > 0 {
      ConvolveImpulse(full, h, z, p, i, k - 1);
      ScaledZero(h[k - 1]);
      AddZero(Convolve(full, h, i, k - 1));
      AddZero(ComplexVectors.Scale(h[k - 1], full[i + |h| - k]));
    }
  }

  /** An impulse comes out as the taps in order, from its own place on. */
  lemma ImpulseGivesTaps(h: seq<real>, z: Complex, p: nat, n: nat, i: nat)
    requires |h| > 0 && i < n
    ensures Output(h, Silence(|h| - 1), Impulse(z, p, n))[i]
         == if p <= i < p + |h| then ComplexVectors.Scale(h[i - p], z) else ZERO
  {
    ConvolveImpulse(Silence(|h| - 1) + Impulse(z, p, n), h, z, p, i, |h|);
  }

  /** Entry by entry, x + k y. */
  function Mixed(x: seq<Complex>, k: real, y: seq<Complex>): (m: seq<Complex>)
    requires |x| == |y|
    ensures |m| == |x| && forall i :: 0 <= i < |x| ==> m[i] == ComplexVectors.Add(x[i], ComplexVectors.Scale(k, y[i]))
  {
    seq(|x|, i requires 0 <= i < |x| => ComplexVectors.Add(x[i], ComplexVectors.Scale(k, y[i])))
  }

  lemma MixTerm(u: Complex, v: Complex, x: Complex, y: Complex, k: real, t: real)
    ensures ComplexVectors.Add(ComplexVectors.Add(u, ComplexVectors.Scale(k, v)), ComplexVectors.Scale(t, ComplexVectors.Add(x, ComplexVectors.Scale(k, y))))
         == ComplexVectors.Add(ComplexVectors.Add(u, ComplexVectors.Scale(t, x)), ComplexVectors.Scale(k, ComplexVectors.Add(v, ComplexVectors.Scale(t, y))))
  {
    MixCoordinate(u.re, v.re, x.re, y.re, k, t);
    MixCoordinate(u.im, v.im, x.im, y.im, k, t);
  }

  lemma MixCoordinate(u: real, v: real, x: real, y: real, k: real, t: real)
    ensures u + k * v + t * (x + k * y) == u + t * x + k * (v + t * y)
  {
    ComplexVectors.Distribute(t, x, k * y);
    ComplexVectors.Distribute(k, v, t * y);
    ComplexVectors.Regroup(t, k, y);
  }

  lemma {:induction false} ConvolveIsLinear(a: seq<Complex>, k: real, b: seq<Complex>, h: seq<real>, i: nat, n: nat)
    requires 0 < |h| && |a| == |b| && i + |h| <= |a| && n <= |h|
    ensures Convolve(Mixed(a, k, b), h, i, n) == ComplexVectors.Add(Convolve(a, h, i, n), ComplexVectors.Scale(k, Convolve(b, h, i, n)))
  {
    hide ComplexVectors.Scale, ComplexVectors.Add;
    if n == 0 {
      ScaledZero(k);
      AddZero(ZERO);
    } else {
      ConvolveIsLinear(a, k, b, h, i, n - 1);
      MixTerm(Convolve(a, h, i, n - 1), Convolve(b, h, i, n - 1), a[i + |h| - n], b[i + |h| - n], k, h[n - 1]);
    }
  }

  /** The pass is linear in the history and the stride together; so the impulses say it all. */
  lemma OutputIsLinear(h: seq<real>, history: seq<Complex>, x: seq<Complex>, k: real, history': seq<Complex>, y: seq<Complex>)
    requires |h| > 0 && |history| == |history'| == |h| - 1 && |x| == |y|
    ensures Output(h, Mixed(history, k, history'), Mixed(x, k, y)) == Mixed(Output(h, history, x), k, Output(h, history', y))
  {
    hide Convolve, ComplexVectors.Scale, ComplexVectors.Add;
    assert Mixed(history, k, history') + Mixed(x, k, y) == Mixed(history + x, k, history' + y);
    forall i | 0 <= i < |x|
      ensures Output(h, Mixed(history, k, history'), Mixed(x, k, y))[i] == Mixed(Output(h, history, x), k, Output(h, history', y))[i]
    {
      ConvolveIsLinear(history + x, k, history' + y, h, i, |h|);
    }
  }

  // ---- the in-place pass ----

  function Row<T>(a: array2<T>, c: nat): (row: seq<T>)
    requires c < a.Length0
    reads a
    ensures |row| == a.Length1
    ensures forall i :: 0 <= i < a.Length1 ==> row[i] == a[c, i]
  {
    seq(a.Length1, i requires 0 <= i < a.Length1 reads a => a[c, i])
  }

  /** Slots hold the inputs from place `from` up to place `upto` of the stream. */
  ghost predicate Holds(rings: array2<Complex>, c: nat, full: seq<Complex>, from: nat, upto: nat)
    requires c < rings.Length0 && rings.Length1 > 0 && from <= upto <= |full|
    reads rings
  {
    forall a :: from <= a < upto ==> rings[c, Slot(a, rings.Length1)] == full[a]
  }

  /** One output sample from the ring. */
  method Accumulate(rings: array2<Complex>, h: array2<real>, c: nat, ringIdx: nat, ghost full: seq<Complex>, ghost i: nat)
    returns (acc: Complex)
    requires c < rings.Length0 && c < h.Length0 && rings.Length1 == h.Length1 > 0
    requires i + h.Length1 <= |full| && ringIdx == Slot(i + h.Length1 - 1, h.Length1)
    requires Holds(rings, c, full, i, i + h.Length1)
    ensures acc == Convolve(full, Row(h, c), i, h.Length1)
  {
    var N := h.Length1;
    var accReal, accImag := 0.0, 0.0;
    for j := 0 to N
      invariant ComplexVectors.C(accReal, accImag) == Convolve(full, Row(h, c), i, j)
    {
      var idx := ringIdx - j;
      if idx < 0 { idx := idx + N; }
      SlotBack(i + N - 1, j, N);
      var val := rings[c, idx];
      var weight := h[c, j];
      assert val == full[i + N - 1 - j];
      accReal := accReal + val.re * weight;
      accImag := accImag + val.im * weight;
    }
    acc := ComplexVectors.C(accReal, accImag);
  }

  lemma SlotBack(a: nat, j: nat, n: nat)
    requires j < n && j <= a
    ensures Slot(a - j, n) == if Slot(a, n) - j < 0 then Slot(a, n) - j + n else Slot(a, n) - j
  {
    var k, q := Slot(a, n), a / n;
    assert a == n * q + k;
    if k < j {
      assert n * (q - 1) == n * q - n;
      SlotUnique(a - j, q - 1, k - j + n, n);
    } else {
      SlotUnique(a - j, q, k - j, n);
    }
  }

  /** The ring starts with the carried history. */
  method Hydrate(history: array2<Complex>, rings: array2<Complex>, c: nat, ghost full: seq<Complex>)
    requires c < history.Length0 == rings.Length0 && rings.Length1 == history.Length1 + 1 && rings != history
    requires |full| >= history.Length1 && forall k :: 0 <= k < history.Length1 ==> full[k] == history[c, k]
    modifies rings
    ensures Holds(rings, c, full, 0, history.Length1)
  {
    var N := rings.Length1;
    for i := 0 to N - 1
      invariant forall a :: 0 <= a < i ==> rings[c, a] == full[a]
    {
      rings[c, i] := history[c, i];
    }
    forall a | 0 <= a < N - 1 ensures Slot(a, N) == a { SlotIdentity(a, N); }
  }

  /** One sample goes into the ring, over the oldest. */
  method Insert(rings: array2<Complex>, c: nat, ringIdx: nat, currX: Complex, ghost full: seq<Complex>, ghost i: nat)
    requires c < rings.Length0 && rings.Length1 > 0 && i + rings.Length1 <= |full|
    requires ringIdx == Slot(rings.Length1 - 1 + i, rings.Length1) && currX == full[rings.Length1 - 1 + i]
    requires Holds(rings, c, full, i, i + rings.Length1 - 1)
    modifies rings
    ensures Holds(rings, c, full, i, i + rings.Length1)
  {
    rings[c, ringIdx] := currX;
    HoldsMore(rings.Length1, i);
  }

  /** The filtering loop of one channel. */
  method Filter(strides: array2<Complex>, rings: array2<Complex>, h: array2<real>, c: nat, ghost full: seq<Complex>)
    returns (ringIdx: nat)
    requires c < strides.Length0 == rings.Length0 == h.Length0 && rings.Length1 == h.Length1 > 0 && strides != rings
    requires |full| == h.Length1 - 1 + strides.Length1
    requires forall k :: 0 <= k < strides.Length1 ==> full[h.Length1 - 1 + k] == strides[c, k]
    requires Holds(rings, c, full, 0, h.Length1 - 1)
    modifies strides, rings
    ensures ringIdx == Slot(h.Length1 - 1 + strides.Length1, h.Length1)
    ensures Holds(rings, c, full, strides.Length1, h.Length1 - 1 + strides.Length1)
    ensures forall k :: 0 <= k < strides.Length1 ==> strides[c, k] == Convolve(full, Row(h, c), k, h.Length1)
    ensures forall d, i :: 0 <= d < strides.Length0 && d != c && 0 <= i < strides.Length1 ==> strides[d, i] == old(strides[d, i])
  {
    hide Slot, Convolve, Holds;
    var N, L := h.Length1, strides.Length1;
    ghost var taps := Row(h, c);
    ringIdx := N - 1;
    SlotIdentity(N - 1, N);
    for i := 0 to L
      invariant ringIdx == Slot(N - 1 + i, N)
      invariant Holds(rings, c, full, i, N - 1 + i)
      invariant forall k :: 0 <= k < i ==> strides[c, k] == Convolve(full, taps, k, N)
      invariant forall k :: i <= k < L ==> strides[c, k] == full[N - 1 + k]
      invariant forall d, k :: 0 <= d < strides.Length0 && d != c && 0 <= k < L ==> strides[d, k] == old(strides[d, k])
    {
      var currX := strides[c, i];
      Insert(rings, c, ringIdx, currX, full, i);
      var acc := Accumulate(rings, h, c, ringIdx, full, i);
      strides[c, i] := acc;
      HoldsLess(rings, c, full, i, i + N);
      SlotNext(N - 1 + i, N);
      ringIdx := ringIdx + 1;
      if ringIdx >= N { ringIdx := 0; }
    }
  }

  lemma HoldsLess(rings: array2<Complex>, c: nat, full: seq<Complex>, from: nat, upto: nat)
    requires c < rings.Length0 && rings.Length1 > 0 && from < upto <= |full| && Holds(rings, c, full, from, upto)
    ensures Holds(rings, c, full, from + 1, upto)
  {
  }

  /** The last N-1 inputs are carried over. */
  method Preserve(history: array2<Complex>, rings: array2<Complex>, c: nat, ringIdx: nat, ghost full: seq<Complex>, ghost L: nat)
    requires c < history.Length0 == rings.Length0 && rings.Length1 == history.Length1 + 1 && rings != history
    requires |full| == history.Length1 + L && ringIdx == Slot(history.Length1 + L, rings.Length1)
    requires Holds(rings, c, full, L, history.Length1 + L)
    modifies history
    ensures forall k :: 0 <= k < history.Length1 ==> history[c, k] == full[L + k]
    ensures forall d, k :: 0 <= d < history.Length0 && d != c && 0 <= k < history.Length1 ==> history[d, k] == old(history[d, k])
  {
    hide Slot;
    var N := rings.Length1;
    for i := 0 to N - 1
      invariant forall k :: 0 <= k < i ==> history[c, k] == full[L + k]
      invariant forall d, k :: 0 <= d < history.Length0 && d != c && 0 <= k < history.Length1 ==> history[d, k] == old(history[d, k])
    {
      var idx := ringIdx - (N - 1) + i;
      if idx < 0 { idx := idx + N; }
      SlotBack(N - 1 + L, N - 1 - i, N);
      history[c, i] := rings[c, idx];
    }
  }

  method EqualizeChannel(strides: array2<Complex>, history: array2<Complex>, rings: array2<Complex>, h: array2<real>, c: nat)
    requires c < strides.Length0 == history.Length0 == rings.Length0 == h.Length0
    requires rings.Length1 == h.Length1 > 0 && history.Length1 == h.Length1 - 1
    requires strides != history && history != rings && strides != rings
    modifies strides, history, rings
    ensures Row(strides, c) == Output(Row(h, c), old(Row(history, c)), old(Row(strides, c)))
    ensures Row(history, c) == NextHistory(old(Row(history, c)), old(Row(strides, c)))
    ensures forall d, i :: 0 <= d < strides.Length0 && d != c && 0 <= i < strides.Length1 ==> strides[d, i] == old(strides[d, i])
    ensures forall d, i :: 0 <= d < history.Length0 && d != c && 0 <= i < history.Length1 ==> history[d, i] == old(history[d, i])
  {
    hide Slot, Convolve, Holds;
    ghost var full := Row(history, c) + Row(strides, c);
    Hydrate(history, rings, c, full);
    var ringIdx := Filter(strides, rings, h, c, full);
    Preserve(history, rings, c, ringIdx, full, strides.Length1);
  }

  /** The N places i .. i + N-1 fall into different slots. */
  lemma HoldsMore(n: nat, i: nat)
    requires n > 0
    ensures forall a :: i <= a < n - 1 + i ==> Slot(a, n) != Slot(n - 1 + i, n)
  {
    forall a | i <= a < n - 1 + i ensures Slot(a, n) != Slot(n - 1 + i, n) { SlotInjective(a, n - 1 + i, n); }
  }

  method Equalize(strides: array2<Complex>, history: array2<Complex>, rings: array2<Complex>, h: array2<real>)
    requires strides.Length0 == history.Length0 == rings.Length0 == h.Length0
    requires rings.Length1 == h.Length1 > 0 && history.Length1 == h.Length1 - 1
    requires strides != history && history != rings && strides != rings
    modifies strides, history, rings
    ensures forall c :: 0 <= c < strides.Length0 ==>
              Row(strides, c) == Output(Row(h, c), old(Row(history, c)), old(Row(strides, c)))
              && Row(history, c) == NextHistory(old(Row(history, c)), old(Row(strides, c)))
  {
    for c := 0 to strides.Length0
      invariant forall d :: 0 <= d < c ==>
                  Row(strides, d) == Output(Row(h, d), old(Row(history, d)), old(Row(strides, d)))
                  && Row(history, d) == NextHistory(old(Row(history, d)), old(Row(strides, d)))
      invariant forall d :: c <= d < strides.Length0 ==> Row(strides, d) == old(Row(strides, d)) && Row(history, d) == old(Row(history, d))
    {
      EqualizeChannel(strides, history, rings, h, c);
    }
  }
}
