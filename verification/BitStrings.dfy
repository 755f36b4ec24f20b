/** Numbers as fixed-width bit strings, most significant bit first. */
module BitStrings {
  import opened Basics

  /** The low n bits of v. */
  function Bits(v: nat, n: nat): (b: seq<bool>)
    ensures |b| == n
  {
    if n == 0 then [] else Bits(v / 2, n - 1) + [v % 2 == 1]
  }

  function Value(b: seq<bool>): nat {
    if |b| == 0 then 0 else 2 * Value(b[..|b| - 1]) + if b[|b| - 1] then 1 else 0
  }

  function Zeros(n: nat): (b: seq<bool>)
    ensures |b| == n
  {
    seq(n, _ => false)
  }

  lemma {:induction false} ValueOfBits(v: nat, n: nat)
    requires v < Pow2(n)
    ensures Value(Bits(v, n)) == v
  {
    if n > 0 {
      ValueOfBits(v / 2, n - 1);
      assert Bits(v, n)[..n - 1] == Bits(v / 2, n - 1);
    }
  }

  lemma {:induction false} BitsOfValue(b: seq<bool>)
    ensures Value(b) < Pow2(|b|) && Bits(Value(b), |b|) == b
  {
    if |b| > 0 {
      BitsOfValue(b[..|b| - 1]);
      assert b == b[..|b| - 1] + [b[|b| - 1]];
    }
  }

  /** v << m. */
  function Shl(v: nat, m: nat): nat { v * Pow2(m) }

  /** v >> m. */
  function Shr(v: nat, m: nat): nat
  {
    DivNonNegative(v, Pow2(m));
    v / Pow2(m)
  }

  /** v & (2^m - 1). */
  function Low(v: nat, m: nat): (r: nat)
    ensures r < Pow2(m)
  {
    v % Pow2(m)
  }

  lemma DivNonNegative(v: nat, d: nat)
    requires d > 0
    ensures v / d >= 0
  {
  }

  lemma Parts(v: nat, m: nat)
    ensures v == Shl(Shr(v, m), m) + Low(v, m)
  {
  }

  lemma ShlStep(a: nat, m: nat)
    ensures Shl(a, 0) == a && Shl(a, m + 1) == 2 * Shl(a, m)
  {
  }

  /** Shifting a left by m and or-ing c in puts the two strings side by side. */
  lemma {:induction false} BitsJoin(a: nat, k: nat, c: nat, m: nat)
    requires c < Pow2(m)
    ensures Bits(Shl(a, m) + c, k + m) == Bits(a, k) + Bits(c, m)
  {
    hide Shl;
    if m > 0 {
      BitsJoin(a, k, c / 2, m - 1);
      ShlStep(a, m - 1);
      var v := Shl(a, m) + c;
      assert v / 2 == Shl(a, m - 1) + c / 2 && v % 2 == c % 2;
      assert Bits(v, k + m) == Bits(v / 2, k + m - 1) + [c % 2 == 1];
    } else {
      ShlStep(a, 0);
    }
  }

  /** v >> m and v & (2^m - 1) are the two parts of the string. */
  lemma BitsSplit(v: nat, k: nat, m: nat)
    ensures Bits(v, k + m) == Bits(Shr(v, m), k) + Bits(Low(v, m), m)
  {
    hide Shl, Shr, Low;
    Parts(v, m);
    BitsJoin(Shr(v, m), k, Low(v, m), m);
  }

  /** Masking to n bits keeps the low n bits. */
  lemma BitsMask(v: nat, n: nat)
    ensures Bits(Low(v, n), n) == Bits(v, n)
  {
    BitsSplit(v, 0, n);
  }

  lemma {:induction false} BitsZero(n: nat)
    ensures Bits(0, n) == Zeros(n)
  {
    if n > 0 {
      BitsZero(n - 1);
      assert Zeros(n) == Zeros(n - 1) + [false];
    }
  }

  lemma Powers()
    ensures Pow2(1) == 2 && Pow2(2) == 4 && Pow2(3) == 8 && Pow2(4) == 16
    ensures Pow2(8) == 256 && Pow2(10) == 1024 && Pow2(12) == 4096
  {
    assert Pow2(4) == 16;
    assert Pow2(8) == 256;
    assert Pow2(12) == 4096;
  }

  // ---- bytes ----

  function BytesBits(bytes: seq<byte>): (b: seq<bool>)
    ensures |b| == 8 * |bytes|
  {
    if |bytes| == 0 then [] else Bits(bytes[0], 8) + BytesBits(bytes[1..])
  }

  lemma {:induction false} BytesBitsAppend(p: seq<byte>, q: seq<byte>)
    ensures BytesBits(p + q) == BytesBits(p) + BytesBits(q)
  {
    if |p| == 0 {
      assert p + q == q;
    } else {
      BytesBitsAppend(p[1..], q);
      assert (p + q)[0] == p[0] && (p + q)[1..] == p[1..] + q;
      Associative(Bits(p[0], 8), BytesBits(p[1..]), BytesBits(q));
    }
  }

  lemma Associative(a: seq<bool>, b: seq<bool>, c: seq<bool>)
    ensures a + b + c == a + (b + c)
  {
  }

  function PaddedLength(n: nat): nat { (n + 7) / 8 }

  /** The string cut into bytes, the last one filled up with zeros. */
  function PackBits(b: seq<bool>): (bytes: seq<byte>)
    ensures |bytes| == PaddedLength(|b|)
  {
    if |b| == 0 then []
    else if |b| < 8 then [OneByte(b + Zeros(8 - |b|))]
    else [OneByte(b[..8])] + PackBits(b[8..])
  }

  function OneByte(b: seq<bool>): byte
    requires |b| == 8
  {
    BitsOfValue(b);
    Powers();
    Value(b)
  }

  lemma ByteOfBits(v: byte)
    ensures OneByte(Bits(v, 8)) == v
  {
    Powers();
    ValueOfBits(v, 8);
  }

  /** Packing only adds padding. */
  lemma {:induction false} PackKeepsBits(b: seq<bool>)
    ensures BytesBits(PackBits(b)) == b + Zeros(8 * PaddedLength(|b|) - |b|)
  {
    if |b| == 0 {
    } else if |b| < 8 {
      BitsOfValue(b + Zeros(8 - |b|));
      assert PackBits(b)[1..] == [];
    } else {
      BitsOfValue(b[..8]);
      PackKeepsBits(b[8..]);
      assert PackBits(b)[1..] == PackBits(b[8..]);
      assert b == b[..8] + b[8..];
    }
  }

  lemma PackFirst(first: seq<bool>, rest: seq<bool>)
    requires |first| == 8
    ensures PackBits(first + rest) == [OneByte(first)] + PackBits(rest)
  {
    assert (first + rest)[..8] == first && (first + rest)[8..] == rest;
  }

  /** Whole bytes followed by less than a byte. */
  lemma {:induction false} PackWhole(bytes: seq<byte>, tail: seq<bool>)
    ensures PackBits(BytesBits(bytes) + tail) == bytes + PackBits(tail)
  {
    if |bytes| == 0 {
      assert BytesBits(bytes) + tail == tail;
    } else {
      PackWhole(bytes[1..], tail);
      PackFirst(Bits(bytes[0], 8), BytesBits(bytes[1..]) + tail);
      Associative(Bits(bytes[0], 8), BytesBits(bytes[1..]), tail);
      ByteOfBits(bytes[0]);
      assert bytes == [bytes[0]] + bytes[1..];
    }
  }
}
