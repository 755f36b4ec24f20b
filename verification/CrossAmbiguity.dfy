/** cross_ambiguity_engine.py: the 1-bit packed correlator. Signs of 4096 rotated samples are
    packed 64 to a word, correlated with 33 shifts of the packed code by XNOR and popcount, and
    the result is the correlation one would compute sample by sample. */
module CrossAmbiguity {
  import opened PackedWords
  import ComplexVectors

  type Complex = ComplexVectors.Complex

  const WORDS := 64
  const SAMPLES := 4096
  const LAGS := 33
  const CODE_CHIPS := 4160

  // ---- the plain correlator ----

  function Sign(v: real): int { if v >= 0.0 then 1 else -1 }

  /** The chip the engine correlates with; anything but a positive value, including the padding,
      counts as -1. */
  function Chip(prn: seq<real>, n: nat): int { if n < |prn| && prn[n] > 0.0 then 1 else -1 }

  function Chips(prn: seq<real>): nat -> int { (n: nat) => Chip(prn, n) }

  function Rotated(x: seq<Complex>, oscillator: seq<Complex>, n: nat): Complex
    requires n < |x| == |oscillator|
  {
    ComplexVectors.Mul(x[n], oscillator[n])
  }

  function RealSigns(x: seq<Complex>, oscillator: seq<Complex>): nat -> int
    requires |x| == |oscillator|
  {
    (n: nat) => if n < |x| then Sign(Rotated(x, oscillator, n).re) else 0
  }

  function ImaginarySigns(x: seq<Complex>, oscillator: seq<Complex>): nat -> int
    requires |x| == |oscillator|
  {
    (n: nat) => if n < |x| then Sign(Rotated(x, oscillator, n).im) else 0
  }

  /** Sum of sig(m) * chip(m + shift) over the first n samples. */
  function Correlation(sig: nat -> int, chip: nat -> int, shift: nat, n: nat): int {
    if n == 0 then 0 else Correlation(sig, chip, shift, n - 1) + sig(n - 1) * chip(n - 1 + shift)
  }

  function Square(p: int): int { p * p }
  function Power(p: int, q: int): int { Square(p) + Square(q) }

  // ---- packed words ----

  /** Bit k of the word tells +1 from -1 at place base + k of s. */
  predicate Says(word: bv64, k: nat, s: nat -> int, base: nat)
    requires k < 64
  {
    (s(base + k) == 1 || s(base + k) == -1) && (Bit(word, k) <==> s(base + k) == 1)
  }

  ghost predicate WordSays(word: bv64, s: nat -> int, base: nat) {
    forall k: nat :: k < 64 ==> Says(word, k, s, base)
  }

  /** The words hold, bit by bit, where s is +1, from place `shift` on. */
  ghost predicate Packs(words: seq<bv64>, s: nat -> int, shift: nat) {
    forall w: nat :: w < |words| ==> WordSays(words[w], s, 64 * w + shift)
  }

  /** XNOR and popcount of one word: agreements less disagreements. */
  lemma {:induction false} WordCorrelates(p: bv64, q: bv64, sig: nat -> int, chip: nat -> int, shift: nat, base: nat, k: nat)
    requires k <= 64 && WordSays(p, sig, base) && WordSays(q, chip, base + shift)
    ensures Correlation(sig, chip, shift, base + k)
         == Correlation(sig, chip, shift, base) + 2 * Ones(Match(p, q), k) - k
  {
    if k > 0 {
      WordCorrelates(p, q, sig, chip, shift, base, k - 1);
      hide Bit, Match;
      MatchBit(p, q, k - 1);
      assert Says(p, k - 1, sig, base) && Says(q, k - 1, chip, base + shift);
      assert base + k - 1 + shift == base + shift + (k - 1);
    }
  }

  /** A word of the shifted replica holds the chips `shift` places later. */
  lemma ReplicaWord(code: seq<bv64>, chip: nat -> int, i: nat, shift: nat)
    requires i + 1 < |code| && 0 < shift < 64 && Packs(code, chip, 0)
    ensures WordSays(Funnel(code[i], code[i + 1], shift), chip, 64 * i + shift)
  {
    hide Bit, Funnel;
    var base := 64 * i + shift;
    var word := Funnel(code[i], code[i + 1], shift);
    forall k: nat | k < 64 ensures Says(word, k, chip, base) {
      FunnelBit(code[i], code[i + 1], shift, k);
      if k + shift < 64 {
        assert Says(code[i], k + shift, chip, 64 * i + 0);
        assert 64 * i + (k + shift) == 64 * i + shift + k;
      } else {
        assert Says(code[i + 1], k + shift - 64, chip, 64 * (i + 1) + 0);
        assert 64 * (i + 1) + (k + shift - 64) == 64 * i + shift + k;
      }
    }
  }

  // ---- the methods ----

  /** set_prn_code: any length of code, short ones padded with zeros to 4160 chips. */
  method SetPrnCode(prn: seq<real>, code: array<bv64>)
    requires code.Length == 65
    modifies code
    ensures Packs(code[..], Chips(prn), 0)
  {
    hide Bit, Put;
    var chips := prn;
    if |prn| < CODE_CHIPS {
      chips := prn + seq(CODE_CHIPS - |prn|, _ => 0.0);
    }
    for w := 0 to 65
      invariant forall v :: 0 <= v < w ==> code[v] == 0
    {
      code[w] := 0;
    }
    forall k: nat | k < 64 ensures !Bit(0, k) { ZeroBit(k); }
    for i := 0 to CODE_CHIPS
      invariant forall w: nat, k: nat :: w < 65 && k < 64 ==>
                  (Bit(code[w], k) <==> 64 * w + k < i && Chip(prn, 64 * w + k) == 1)
    {
      var wordIdx, bitIdx := i / 64, i % 64;
      var was := code[wordIdx];
      code[wordIdx] := Put(was, chips[i] > 0.0, bitIdx);
      forall k: nat | k < 64
        ensures Bit(code[wordIdx], k) <==> 64 * wordIdx + k < i + 1 && Chip(prn, 64 * wordIdx + k) == 1
      {
        PutBit(was, chips[i] > 0.0, bitIdx, k);
      }
    }
    forall w: nat | w < 65 ensures WordSays(code[w], Chips(prn), 64 * w + 0) {
      var base := 64 * w + 0;
      forall k: nat | k < 64 ensures Says(code[w], k, Chips(prn), base) {
        assert Chips(prn)(base + k) == Chip(prn, 64 * w + k);
      }
    }
  }

  /** Rotation, sign extraction and packing of one Doppler bin. */
  method PackSigns(x: seq<Complex>, oscillator: seq<Complex>, f: nat, re: array2<bv64>, im: array2<bv64>)
    requires |x| == |oscillator| == SAMPLES && re != im
    requires re.Length0 == im.Length0 && re.Length1 == im.Length1 == WORDS && f < re.Length0
    modifies re, im
    ensures forall w: nat :: w < WORDS ==> WordSays(re[f, w], RealSigns(x, oscillator), 64 * w)
    ensures forall w: nat :: w < WORDS ==> WordSays(im[f, w], ImaginarySigns(x, oscillator), 64 * w)
    ensures forall g, w :: 0 <= g < re.Length0 && 0 <= w < WORDS && g != f ==> re[g, w] == old(re[g, w]) && im[g, w] == old(im[g, w])
  {
    hide WordSays;
    for w := 0 to WORDS
      invariant forall v: nat :: v < w ==> WordSays(re[f, v], RealSigns(x, oscillator), 64 * v)
      invariant forall v: nat :: v < w ==> WordSays(im[f, v], ImaginarySigns(x, oscillator), 64 * v)
      invariant forall g, v :: 0 <= g < re.Length0 && 0 <= v < WORDS && g != f ==> re[g, v] == old(re[g, v]) && im[g, v] == old(im[g, v])
    {
      var valRe, valIm := PackWord(x, oscillator, w);
      re[f, w] := valRe;
      im[f, w] := valIm;
    }
  }

  method PackWord(x: seq<Complex>, oscillator: seq<Complex>, w: nat) returns (valRe: bv64, valIm: bv64)
    requires |x| == |oscillator| == SAMPLES && w < WORDS
    ensures WordSays(valRe, RealSigns(x, oscillator), 64 * w)
    ensures WordSays(valIm, ImaginarySigns(x, oscillator), 64 * w)
  {
    hide Bit, Put, Rotated;
    var wOffset := w * 64;
    valRe, valIm := 0, 0;
    forall k: nat | k < 64 ensures !Bit(0, k) { ZeroBit(k); }
    for b := 0 to 64
      invariant forall k: nat :: k < 64 ==> (Bit(valRe, k) <==> k < b && Rotated(x, oscillator, 64 * w + k).re >= 0.0)
      invariant forall k: nat :: k < 64 ==> (Bit(valIm, k) <==> k < b && Rotated(x, oscillator, 64 * w + k).im >= 0.0)
    {
      var rot := Rotated(x, oscillator, wOffset + b);
      ghost var wasRe, wasIm := valRe, valIm;
      valRe := Put(valRe, rot.re >= 0.0, b);
      valIm := Put(valIm, rot.im >= 0.0, b);
      forall k: nat | k < 64
        ensures Bit(valRe, k) <==> k < b + 1 && Rotated(x, oscillator, 64 * w + k).re >= 0.0
        ensures Bit(valIm, k) <==> k < b + 1 && Rotated(x, oscillator, 64 * w + k).im >= 0.0
      {
        PutBit(wasRe, rot.re >= 0.0, b, k);
        PutBit(wasIm, rot.im >= 0.0, b, k);
      }
    }
    forall k: nat | k < 64
      ensures Says(valRe, k, RealSigns(x, oscillator), 64 * w) && Says(valIm, k, ImaginarySigns(x, oscillator), 64 * w)
    {
      assert RealSigns(x, oscillator)(64 * w + k) == Sign(Rotated(x, oscillator, 64 * w + k).re);
      assert ImaginarySigns(x, oscillator)(64 * w + k) == Sign(Rotated(x, oscillator, 64 * w + k).im);
    }
  }

  /** The local replica of the code for one lag. */
  method ShiftCode(code: array<bv64>, ghost chip: nat -> int, shiftRight: nat, shifted: array<bv64>)
    requires code.Length == 65 && shifted.Length == WORDS && code != shifted && shiftRight <= 32
    requires Packs(code[..], chip, 0)
    modifies shifted
    ensures Packs(shifted[..], chip, shiftRight)
  {
    hide Bit, Funnel, WordSays;
    if shiftRight == 0 {
      for i := 0 to WORDS
        invariant forall w: nat :: w < i ==> WordSays(shifted[w], chip, 64 * w + shiftRight)
      {
        assert WordSays(code[..][i], chip, 64 * i + 0);
        shifted[i] := code[i];
      }
    } else {
      for i := 0 to WORDS
        invariant forall w: nat :: w < i ==> WordSays(shifted[w], chip, 64 * w + shiftRight)
      {
        ReplicaWord(code[..], chip, i, shiftRight);
        shifted[i] := Funnel(code[i], code[i + 1], shiftRight);
      }
    }
  }

  /** One lag of one Doppler bin. */
  method CorrelateLag(re: array2<bv64>, im: array2<bv64>, f: nat, shifted: array<bv64>,
                      ghost iSigns: nat -> int, ghost qSigns: nat -> int, ghost chip: nat -> int, ghost shift: nat)
    returns (value: int)
    requires re.Length0 == im.Length0 && re.Length1 == im.Length1 == WORDS && f < re.Length0 && shifted.Length == WORDS
    requires forall w: nat :: w < WORDS ==> WordSays(re[f, w], iSigns, 64 * w)
    requires forall w: nat :: w < WORDS ==> WordSays(im[f, w], qSigns, 64 * w)
    requires Packs(shifted[..], chip, shift)
    ensures value == Power(Correlation(iSigns, chip, shift, SAMPLES), Correlation(qSigns, chip, shift, SAMPLES))
  {
    hide Bit, Match, Popcount64, Num, Ones, WordSays, Power;
    var accRe: int, accIm: int := 0, 0;
    for i := 0 to WORDS
      invariant 2 * accRe - 64 * i == Correlation(iSigns, chip, shift, 64 * i)
      invariant 2 * accIm - 64 * i == Correlation(qSigns, chip, shift, 64 * i)
    {
      assert WordSays(shifted[..][i], chip, 64 * i + shift);
      var matchRe := Match(re[f, i], shifted[i]);
      var matchIm := Match(im[f, i], shifted[i]);
      accRe := accRe + Num(Popcount64(matchRe));
      accIm := accIm + Num(Popcount64(matchIm));
      PopcountCounts(matchRe);
      PopcountCounts(matchIm);
      WordCorrelates(re[f, i], shifted[i], iSigns, chip, shift, 64 * i, 64);
      WordCorrelates(im[f, i], shifted[i], qSigns, chip, shift, 64 * i, 64);
    }
    var corrRe, corrIm := 2 * accRe - 4096, 2 * accIm - 4096;
    value := Power(corrRe, corrIm);
  }

  /** What the surface means: squared in-phase and quadrature correlation with the code `shift`
      chips ahead. */
  function Surface(x: seq<Complex>, oscillator: seq<Complex>, chip: nat -> int, shift: nat): int
    requires |x| == |oscillator| == SAMPLES
  {
    Power(Correlation(RealSigns(x, oscillator), chip, shift, SAMPLES),
          Correlation(ImaginarySigns(x, oscillator), chip, shift, SAMPLES))
  }

  /** The kernel: every cell of the surface is the plain +1/-1 correlation, squared. */
  method Kernel(x: seq<Complex>, oscillators: seq<seq<Complex>>, code: array<bv64>, ghost chip: nat -> int,
                re: array2<bv64>, im: array2<bv64>, shifted: array<bv64>, caf: array2<int>)
    requires |x| == SAMPLES && forall f :: 0 <= f < |oscillators| ==> |oscillators[f]| == SAMPLES
    requires code.Length == 65 && shifted.Length == WORDS && code != shifted && re != im
    requires re.Length0 == im.Length0 == |oscillators| && re.Length1 == im.Length1 == WORDS
    requires caf.Length0 == LAGS && caf.Length1 == |oscillators|
    requires Packs(code[..], chip, 0)
    modifies re, im, shifted, caf
    ensures forall l, f :: 0 <= l < LAGS && 0 <= f < |oscillators| ==>
              caf[l, f] == Surface(x, oscillators[f], chip, 32 - l)
  {
    hide WordSays, Packs, Correlation, Power;
    for f := 0 to |oscillators|
      invariant forall g: nat, w: nat :: g < f && w < WORDS ==> WordSays(re[g, w], RealSigns(x, oscillators[g]), 64 * w)
      invariant forall g: nat, w: nat :: g < f && w < WORDS ==> WordSays(im[g, w], ImaginarySigns(x, oscillators[g]), 64 * w)
      modifies re, im
    {
      PackSigns(x, oscillators[f], f, re, im);
    }
    for f := 0 to |oscillators|
      modifies shifted, caf
      invariant forall l, g :: 0 <= l < LAGS && 0 <= g < f ==> caf[l, g] == Surface(x, oscillators[g], chip, 32 - l)
    {
      for l := 0 to LAGS
        modifies shifted, caf
        invariant forall m, g :: 0 <= m < LAGS && 0 <= g < |oscillators| && (g < f || (g == f && m < l)) ==>
                    caf[m, g] == Surface(x, oscillators[g], chip, 32 - m)
      {
        ShiftCode(code, chip, 32 - l, shifted);
        caf[l, f] := CorrelateLag(re, im, f, shifted, RealSigns(x, oscillators[f]), ImaginarySigns(x, oscillators[f]), chip, 32 - l);
      }
    }
  }

  // ---- what a cell says about the signal ----

  /** Each sample of the oscillator has modulus 1. */
  predicate IsOscillator(o: seq<Complex>) {
    |o| == SAMPLES && forall n :: 0 <= n < SAMPLES ==> ComplexVectors.Power(o[n]) == 1.0
  }

  /** The signal with every sample turned back by the oscillator. */
  function Derotated(x: seq<Complex>, o: seq<Complex>): (y: seq<Complex>)
    requires |x| == |o|
    ensures |y| == |x| && forall n :: 0 <= n < |x| ==> y[n] == ComplexVectors.Mul(x[n], ComplexVectors.Conj(o[n]))
  {
    seq(|x|, n requires 0 <= n < |x| => ComplexVectors.Mul(x[n], ComplexVectors.Conj(o[n])))
  }

  lemma TurnedBack(z: Complex, o: Complex)
    requires ComplexVectors.Power(o) == 1.0
    ensures ComplexVectors.Mul(ComplexVectors.Mul(z, ComplexVectors.Conj(o)), o) == z
  {
    hide ComplexVectors.Mul, ComplexVectors.Power, ComplexVectors.Conj;
    ComplexVectors.MulAssoc(z, ComplexVectors.Conj(o), o);
    ComplexVectors.MulCommutes(ComplexVectors.Conj(o), o);
    ComplexVectors.MulConj(o);
    TimesOne(z);
  }

  lemma TimesOne(z: Complex)
    ensures ComplexVectors.Mul(z, ComplexVectors.C(1.0, 0.0)) == z
  {
  }

  /** The two correlations depend on the signal only through its rotated samples. */
  lemma {:induction false} SameSums(sig: nat -> int, sig': nat -> int, chip: nat -> int, shift: nat, n: nat)
    requires forall m: nat :: m < n ==> sig(m) == sig'(m)
    ensures Correlation(sig, chip, shift, n) == Correlation(sig', chip, shift, n)
  {
    if n > 0 { SameSums(sig, sig', chip, shift, n - 1); }
  }

  /** A bin undoes its own rotation: its cells for a signal turned by the conjugate oscillator are
      the cells of the signal itself without any. */
  lemma BinUndoesItsRotation(x: seq<Complex>, o: seq<Complex>, chip: nat -> int, shift: nat)
    requires |x| == SAMPLES && IsOscillator(o)
    ensures Surface(Derotated(x, o), o, chip, shift) == Surface(x, StillOscillator(), chip, shift)
  {
    hide ComplexVectors.Mul, ComplexVectors.Power, ComplexVectors.Conj, Correlation, Power, Sign;
    var y, still := Derotated(x, o), StillOscillator();
    forall n: nat | n < SAMPLES
      ensures RealSigns(y, o)(n) == RealSigns(x, still)(n) && ImaginarySigns(y, o)(n) == ImaginarySigns(x, still)(n)
    {
      TurnedBack(x[n], o[n]);
      TimesOne(x[n]);
    }
    SameSums(RealSigns(y, o), RealSigns(x, still), chip, shift, SAMPLES);
    SameSums(ImaginarySigns(y, o), ImaginarySigns(x, still), chip, shift, SAMPLES);
  }

  predicate IsBinary(chip: nat -> int, shift: nat) {
    forall m: nat :: shift <= m < shift + SAMPLES ==> chip(m) == 1 || chip(m) == -1
  }

  lemma {:induction false} CorrelationRange(sig: nat -> int, chip: nat -> int, shift: nat, n: nat)
    requires forall m: nat :: m < n ==> (sig(m) == 1 || sig(m) == -1) && (chip(m + shift) == 1 || chip(m + shift) == -1)
    ensures Correlation(sig, chip, shift, n) + n >= 0 && Correlation(sig, chip, shift, n) <= n
    ensures Correlation(sig, chip, shift, n) == n <==> forall m: nat :: m < n ==> sig(m) == chip(m + shift)
  {
    if n > 0 {
      CorrelationRange(sig, chip, shift, n - 1);
      var t: nat := n - 1 + shift;
      assert sig(n - 1) * chip(t) == if sig(n - 1) == chip(t) then 1 else -1;
      if forall m: nat :: m < n - 1 ==> sig(m) == chip(m + shift) {
        assert sig(n - 1) == chip(t) ==> forall m: nat :: m < n ==> sig(m) == chip(m + shift);
      }
    }
  }

  /** A code with amplitude z in the first quadrant, `shift` chips on, spun by the conjugate of the
      oscillator. */
  predicate Carries(x: seq<Complex>, o: seq<Complex>, chip: nat -> int, shift: nat, z: Complex)
    requires |x| == |o| == SAMPLES
  {
    forall n: nat :: n < SAMPLES ==>
      x[n] == ComplexVectors.Mul(ComplexVectors.Scale(chip(n + shift) as real, z), ComplexVectors.Conj(o[n]))
  }

  lemma ScaledSigns(s: int, z: Complex)
    requires (s == 1 || s == -1) && z.re > 0.0 && z.im > 0.0
    ensures Sign(ComplexVectors.Scale(s as real, z).re) == s && Sign(ComplexVectors.Scale(s as real, z).im) == s
  {
  }

  /** In the bin and at the lag of the signal, the cell is 2 * 4096^2. */
  lemma MatchedCell(x: seq<Complex>, o: seq<Complex>, chip: nat -> int, shift: nat, z: Complex)
    requires |x| == SAMPLES && IsOscillator(o) && IsBinary(chip, shift) && z.re > 0.0 && z.im > 0.0
    requires Carries(x, o, chip, shift, z)
    ensures Surface(x, o, chip, shift) == 2 * 4096 * 4096
  {
    hide ComplexVectors.Mul, ComplexVectors.Power, ComplexVectors.Conj, ComplexVectors.Scale, Correlation, Sign;
    forall n: nat | n < SAMPLES
      ensures RealSigns(x, o)(n) == chip(n + shift) && ImaginarySigns(x, o)(n) == chip(n + shift)
    {
      TurnedBack(ComplexVectors.Scale(chip(n + shift) as real, z), o[n]);
      ScaledSigns(chip(n + shift), z);
    }
    CorrelationRange(RealSigns(x, o), chip, shift, SAMPLES);
    CorrelationRange(ImaginarySigns(x, o), chip, shift, SAMPLES);
  }

  /** No cell of any signal exceeds that. */
  lemma NoCellExceedsTheMatch(x: seq<Complex>, o: seq<Complex>, chip: nat -> int, shift: nat)
    requires |x| == |o| == SAMPLES && IsBinary(chip, shift)
    ensures 0 <= Surface(x, o, chip, shift) <= 2 * 4096 * 4096
  {
    hide Correlation, Rotated;
    CorrelationRange(RealSigns(x, o), chip, shift, SAMPLES);
    CorrelationRange(ImaginarySigns(x, o), chip, shift, SAMPLES);
    SquareRange(Correlation(RealSigns(x, o), chip, shift, SAMPLES));
    SquareRange(Correlation(ImaginarySigns(x, o), chip, shift, SAMPLES));
  }

  lemma SquareRange(c: int)
    requires -4096 <= c <= 4096
    ensures 0 <= Square(c) <= 4096 * 4096
  {
    var a, b := 4096 - c, 4096 + c;
    ProductNonNegative(a, b);
    assert a * b == 4096 * 4096 - c * c;
    ProductNonNegative(if c >= 0 then c else -c, if c >= 0 then c else -c);
  }

  lemma ProductNonNegative(a: int, b: int)
    requires a >= 0 && b >= 0
    ensures a * b >= 0
  {
  }

  lemma {:induction false} BalanceOfSilence(sig: nat -> int, chip: nat -> int, shift: nat, n: nat)
    requires forall m: nat :: m < n ==> sig(m) == 1
    ensures Correlation(sig, chip, shift, n) == Balance(chip, shift, n)
  {
    if n > 0 { BalanceOfSilence(sig, chip, shift, n - 1); }
  }

  function Balance(chip: nat -> int, shift: nat, n: nat): int {
    if n == 0 then 0 else Balance(chip, shift, n - 1) + chip(n - 1 + shift)
  }

  /** A silent antenna shows the surplus of positive over negative chips, squared, in both channels:
      zeros count as positive. */
  lemma SilenceShowsTheBalance(x: seq<Complex>, o: seq<Complex>, chip: nat -> int, shift: nat)
    requires |x| == |o| == SAMPLES && forall n :: 0 <= n < SAMPLES ==> x[n] == ComplexVectors.ZERO
    ensures Surface(x, o, chip, shift) == 2 * (Balance(chip, shift, SAMPLES) * Balance(chip, shift, SAMPLES))
  {
    hide Correlation, Balance;
    forall n: nat | n < SAMPLES ensures RealSigns(x, o)(n) == 1 && ImaginarySigns(x, o)(n) == 1 {
      assert Rotated(x, o, n) == ComplexVectors.ZERO;
    }
    BalanceOfSilence(RealSigns(x, o), chip, shift, SAMPLES);
    BalanceOfSilence(ImaginarySigns(x, o), chip, shift, SAMPLES);
  }

  // ---- what padding does ----

  /** The correlation with a code of +1 and -1 chips followed by zeros, as the padding of
      set_prn_code writes it. */
  function ZeroPadded(sig: nat -> int, prn: seq<int>, shift: nat, n: nat): int {
    if n == 0 then 0
    else ZeroPadded(sig, prn, shift, n - 1) + sig(n - 1) * (if n - 1 + shift < |prn| then prn[n - 1 + shift] else 0)
  }

  /** The signal summed over the places that meet padding. */
  function Tail(sig: nat -> int, length: nat, shift: nat, n: nat): int {
    if n == 0 then 0 else Tail(sig, length, shift, n - 1) + (if n - 1 + shift < length then 0 else sig(n - 1))
  }

  predicate IsCode(prn: seq<int>, chips: seq<real>) {
    |prn| == |chips| && forall m :: 0 <= m < |prn| ==> (prn[m] == 1 || prn[m] == -1) && chips[m] == prn[m] as real
  }

  /** A padded place counts as -1, not as 0. */
  lemma {:induction false} PaddingSubtractsTheTail(sig: nat -> int, prn: seq<int>, chips: seq<real>, shift: nat, n: nat)
    requires IsCode(prn, chips)
    ensures Correlation(sig, Chips(chips), shift, n) == ZeroPadded(sig, prn, shift, n) - Tail(sig, |prn|, shift, n)
  {
    if n > 0 {
      PaddingSubtractsTheTail(sig, prn, chips, shift, n - 1);
    }
  }

  lemma {:induction false} NoTail(sig: nat -> int, length: nat, shift: nat, n: nat)
    requires n + shift <= length
    ensures Tail(sig, length, shift, n) == 0
  {
    if n > 0 { NoTail(sig, length, shift, n - 1); }
  }

  lemma {:induction false} TailOfOnes(sig: nat -> int, length: nat, shift: nat, n: nat)
    requires forall m: nat :: m < n ==> sig(m) == 1
    ensures Tail(sig, length, shift, n) == if n + shift <= length then 0 else if length <= shift then n else n + shift - length
  {
    if n > 0 { TailOfOnes(sig, length, shift, n - 1); }
  }

  function ZeroPaddedSurface(x: seq<Complex>, oscillator: seq<Complex>, prn: seq<int>, shift: nat): int
    requires |x| == |oscillator| == SAMPLES
  {
    Power(ZeroPadded(RealSigns(x, oscillator), prn, shift, SAMPLES), ZeroPadded(ImaginarySigns(x, oscillator), prn, shift, SAMPLES))
  }

  /** Every cell of the lag is what a zero-padded code would give, whatever the samples. */
  ghost predicate PaddingIsNeutral(prn: seq<int>, chips: seq<real>, shift: nat) {
    forall x: seq<Complex>, oscillator: seq<Complex> :: |x| == |oscillator| == SAMPLES ==>
      Surface(x, oscillator, Chips(chips), shift) == ZeroPaddedSurface(x, oscillator, prn, shift)
  }

  // the signal that gains most from the padding: against the code where there is one, +1 beyond

  function Opposing(prn: seq<int>, shift: nat, m: nat): real {
    if m + shift < |prn| && prn[m + shift] == 1 then -1.0 else 1.0
  }

  function OpposingSamples(prn: seq<int>, shift: nat): (x: seq<Complex>)
    ensures |x| == SAMPLES
  {
    seq(SAMPLES, m requires 0 <= m < SAMPLES => ComplexVectors.C(Opposing(prn, shift, m), Opposing(prn, shift, m)))
  }

  function StillOscillator(): (o: seq<Complex>)
    ensures |o| == SAMPLES
  {
    seq(SAMPLES, m => ComplexVectors.ONE)
  }

  lemma OpposingSigns(prn: seq<int>, shift: nat, m: nat)
    requires m < SAMPLES
    ensures var x, o := OpposingSamples(prn, shift), StillOscillator();
      RealSigns(x, o)(m) == ImaginarySigns(x, o)(m) == Sign(Opposing(prn, shift, m))
  {
  }

  lemma {:induction false} OpposingSums(sig: nat -> int, prn: seq<int>, chips: seq<real>, shift: nat, n: nat)
    requires IsCode(prn, chips) && forall m: nat :: m < n ==> sig(m) == Sign(Opposing(prn, shift, m))
    ensures ZeroPadded(sig, prn, shift, n) <= 0 <= Tail(sig, |prn|, shift, n)
    ensures n + shift > |prn| && n > 0 ==> Tail(sig, |prn|, shift, n) > 0
  {
    if n > 0 { OpposingSums(sig, prn, chips, shift, n - 1); }
  }

  lemma OpposingChannel(sig: nat -> int, prn: seq<int>, chips: seq<real>, shift: nat)
    requires IsCode(prn, chips) && |prn| < SAMPLES + shift
    requires forall m: nat :: m < SAMPLES ==> sig(m) == Sign(Opposing(prn, shift, m))
    ensures Square(Correlation(sig, Chips(chips), shift, SAMPLES)) > Square(ZeroPadded(sig, prn, shift, SAMPLES))
  {
    hide ZeroPadded, Tail, Correlation, Opposing;
    OpposingSums(sig, prn, chips, shift, SAMPLES);
    PaddingSubtractsTheTail(sig, prn, chips, shift, SAMPLES);
    FartherFromZero(ZeroPadded(sig, prn, shift, SAMPLES), Tail(sig, |prn|, shift, SAMPLES));
  }

  lemma OpposingIsSeen(prn: seq<int>, chips: seq<real>, shift: nat)
    requires IsCode(prn, chips) && |prn| < SAMPLES + shift
    ensures var x, o := OpposingSamples(prn, shift), StillOscillator();
      Surface(x, o, Chips(chips), shift) > ZeroPaddedSurface(x, o, prn, shift)
  {
    hide OpposingSamples, StillOscillator, ZeroPadded, Tail, Correlation, Opposing, Sign, Square, RealSigns, ImaginarySigns, IsCode;
    var x, o := OpposingSamples(prn, shift), StillOscillator();
    var re, im := RealSigns(x, o), ImaginarySigns(x, o);
    forall m: nat | m < SAMPLES ensures re(m) == Sign(Opposing(prn, shift, m)) && im(m) == Sign(Opposing(prn, shift, m)) {
      OpposingSigns(prn, shift, m);
    }
    OpposingChannel(re, prn, chips, shift);
    OpposingChannel(im, prn, chips, shift);
  }

  lemma FartherFromZero(z: int, t: int)
    requires z <= 0 < t
    ensures (z - t) * (z - t) > z * z
  {
    assert (z - t) * (z - t) == z * z + t * (t - 2 * z);
  }

  /** The padding is harmless at a lag exactly when the code covers all 4096 samples there. */
  lemma PaddingIsHarmless(prn: seq<int>, chips: seq<real>, shift: nat)
    requires IsCode(prn, chips)
    ensures PaddingIsNeutral(prn, chips, shift) <==> |prn| >= SAMPLES + shift
  {
    hide Surface, ZeroPaddedSurface;
    if |prn| >= SAMPLES + shift {
      forall x: seq<Complex>, oscillator: seq<Complex> | |x| == |oscillator| == SAMPLES
        ensures Surface(x, oscillator, Chips(chips), shift) == ZeroPaddedSurface(x, oscillator, prn, shift)
      {
        NeutralSurface(prn, chips, shift, x, oscillator);
      }
    } else {
      OpposingIsSeen(prn, chips, shift);
    }
  }

  lemma NeutralSurface(prn: seq<int>, chips: seq<real>, shift: nat, x: seq<Complex>, oscillator: seq<Complex>)
    requires IsCode(prn, chips) && |prn| >= SAMPLES + shift && |x| == |oscillator| == SAMPLES
    ensures Surface(x, oscillator, Chips(chips), shift) == ZeroPaddedSurface(x, oscillator, prn, shift)
  {
    hide ZeroPadded, Tail, Correlation;
    var re, im := RealSigns(x, oscillator), ImaginarySigns(x, oscillator);
    PaddingSubtractsTheTail(re, prn, chips, shift, SAMPLES);
    PaddingSubtractsTheTail(im, prn, chips, shift, SAMPLES);
    NoTail(re, |prn|, shift, SAMPLES);
    NoTail(im, |prn|, shift, SAMPLES);
  }

  /** So the documented 4096 + 32 chips are just enough for the 33 lags. */
  lemma DocumentedLengthIsExact(prn: seq<int>, chips: seq<real>)
    requires IsCode(prn, chips)
    ensures (forall shift: nat :: shift < LAGS ==> PaddingIsNeutral(prn, chips, shift)) <==> |prn| >= 4128
  {
    forall shift: nat | shift < LAGS ensures PaddingIsNeutral(prn, chips, shift) <==> |prn| >= SAMPLES + shift {
      PaddingIsHarmless(prn, chips, shift);
    }
    hide PaddingIsNeutral;
    assert PaddingIsNeutral(prn, chips, 32) <==> |prn| >= SAMPLES + 32;
  }
}
