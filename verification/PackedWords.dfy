/** cross_ambiguity_engine.py: 64-bit words as sequences of bits, and what the word operations of
    the packed correlator do to single bits. The leaves are facts about raw machine words; the
    lemmas above them hide the word operations and argue on bits and numbers. */
module PackedWords {

  function Mask(x: bv64, k: bv7): bv64
    requires k < 64
  {
    (x >> k) & 1
  }

  lemma Amount(k: nat)
    requires k < 64
    ensures k as bv7 < 64
  {
  }

  /** Bit k of x, as a word. */
  function At(x: bv64, k: nat): bv64
    requires k < 64
  {
    Amount(k);
    Mask(x, k as bv7)
  }

  predicate Bit(x: bv64, k: nat)
    requires k < 64
  {
    At(x, k) == 1
  }

  function Num(x: bv64): nat { x as nat }
  function Plus(x: bv64, y: bv64): bv64 { x + y }

  /** How many of the lowest k bits of x are set. */
  function Ones(x: bv64, k: nat): (n: nat)
    requires k <= 64
    ensures n <= k
  {
    if k == 0 then 0 else Ones(x, k - 1) + if Bit(x, k - 1) then 1 else 0
  }

  /** The branch-free parallel addition. */
  function Popcount64(x: bv64): bv64 { Low7(Fold32(Fold16(Fold8(Fields(x))))) }

  /** After the first three steps each byte holds its own number of set bits. */
  function Fields(x: bv64): bv64 { Nibbles(Quads(x)) }

  function Quads(x: bv64): bv64 {
    var x := x - ((x >> 1) & 0x5555555555555555);
    var x := (x & 0x3333333333333333) + ((x >> 2) & 0x3333333333333333);
    x + (x >> 4)
  }

  function Nibbles(y: bv64): bv64 { y & 0x0F0F0F0F0F0F0F0F }

  function Fold8(x: bv64): bv64 { x + (x >> 8) }
  function Fold16(x: bv64): bv64 { x + (x >> 16) }
  function Fold32(x: bv64): bv64 { x + (x >> 32) }
  function Low7(x: bv64): bv64 { x & 0x7F }

  /** The low seven bits of the lane that starts at bit s. */
  function Lane(y: bv64, s: bv7): bv64
    requires s < 64
  {
    (y >> s) & 0x7F
  }

  /** The low nibble of the byte that starts at bit s. */
  function Field(y: bv64, s: bv7): bv64
    requires s < 64
  {
    (y >> s) & 0xF
  }

  function Sum8(a0: bv64, a1: bv64, a2: bv64, a3: bv64, a4: bv64, a5: bv64, a6: bv64, a7: bv64): bv64 {
    Plus(Plus(Plus(Plus(Plus(Plus(Plus(a0, a1), a2), a3), a4), a5), a6), a7)
  }

  function ByteSum(x: bv64, k: nat): bv64
    requires k <= 56
  {
    Sum8(At(x, k), At(x, k + 1), At(x, k + 2), At(x, k + 3), At(x, k + 4), At(x, k + 5), At(x, k + 6), At(x, k + 7))
  }

  // ---- leaves of the count ----

  lemma Field0(x: bv64)
    ensures Field(Fields(x), 0) == ByteSum(x, 0)
  {
  }

  lemma Field1(x: bv64)
    ensures Field(Fields(x), 8) == ByteSum(x, 8)
  {
  }

  lemma Field2(x: bv64)
    ensures Field(Fields(x), 16) == ByteSum(x, 16)
  {
  }

  lemma Field3(x: bv64)
    ensures Field(Fields(x), 24) == ByteSum(x, 24)
  {
  }

  lemma Field4(x: bv64)
    ensures Field(Fields(x), 32) == ByteSum(x, 32)
  {
  }

  lemma Field5(x: bv64)
    ensures Field(Fields(x), 40) == ByteSum(x, 40)
  {
  }

  lemma Field6(x: bv64)
    ensures Field(Fields(x), 48) == ByteSum(x, 48)
  {
  }

  lemma Field7(x: bv64)
    ensures Field(Fields(x), 56) == ByteSum(x, 56)
  {
  }

  // ---- the last three steps add the eight fields up ----

  lemma Lane8At0(y: bv64)
    ensures Lane(Fold8(Nibbles(y)), 0) == Plus(Field(Nibbles(y), 0), Field(Nibbles(y), 8))
  {
  }

  lemma Lane8At16(y: bv64)
    ensures Lane(Fold8(Nibbles(y)), 16) == Plus(Field(Nibbles(y), 16), Field(Nibbles(y), 24))
  {
  }

  lemma Lane8At32(y: bv64)
    ensures Lane(Fold8(Nibbles(y)), 32) == Plus(Field(Nibbles(y), 32), Field(Nibbles(y), 40))
  {
  }

  lemma Lane8At48(y: bv64)
    ensures Lane(Fold8(Nibbles(y)), 48) == Plus(Field(Nibbles(y), 48), Field(Nibbles(y), 56))
  {
  }

  lemma Lane16At0(y: bv64)
    ensures Lane(Fold16(Fold8(Nibbles(y))), 0) == Plus(Lane(Fold8(Nibbles(y)), 0), Lane(Fold8(Nibbles(y)), 16))
  {
  }

  lemma Lane16At32(y: bv64)
    ensures Lane(Fold16(Fold8(Nibbles(y))), 32) == Plus(Lane(Fold8(Nibbles(y)), 32), Lane(Fold8(Nibbles(y)), 48))
  {
  }

  lemma Lane32(z: bv64)
    ensures Low7(Fold32(z)) == Low7(Plus(Lane(z, 0), Lane(z, 32)))
  {
  }

  function SumOfFields(y: bv64): bv64 {
    Plus(Plus(Plus(Field(y, 0), Field(y, 8)), Plus(Field(y, 16), Field(y, 24))),
      Plus(Plus(Field(y, 32), Field(y, 40)), Plus(Field(y, 48), Field(y, 56))))
  }

  lemma FoldAdds(x: bv64)
    ensures Popcount64(x) == Low7(SumOfFields(Fields(x)))
  {
    hide Fold8, Fold16, Fold32, Field, Lane, Plus, Quads, Low7, Nibbles;
    var w := Quads(x);
    Lane8At0(w); Lane8At16(w); Lane8At32(w); Lane8At48(w);
    Lane16At0(w); Lane16At32(w);
    Lane32(Fold16(Fold8(Fields(x))));
  }

  lemma SmallWord(x: bv64)
    requires Num(x) <= 64
    ensures x <= 64
  {
  }

  lemma MaskKeeps(x: bv64)
    requires x <= 64
    ensures Low7(x) == x
  {
  }

  lemma Fits(x: bv64)
    requires Num(x) <= 64
    ensures Low7(x) == x
  {
    SmallWord(x);
    MaskKeeps(x);
  }

  lemma AddSmall(x: bv64, y: bv64)
    requires x <= 64 && y <= 64
    ensures Num(Plus(x, y)) == Num(x) + Num(y)
  {
  }

  lemma AtValue(x: bv64, k: nat)
    requires k < 64
    ensures At(x, k) == 0 || At(x, k) == 1
    ensures Num(At(x, k)) == if Bit(x, k) then 1 else 0
  {
  }

  // ---- the parallel addition counts the set bits ----

  lemma AddNum(x: bv64, y: bv64)
    requires Num(x) <= 64 && Num(y) <= 64
    ensures Num(Plus(x, y)) == Num(x) + Num(y)
  {
    SmallWord(x); SmallWord(y); AddSmall(x, y);
  }

  lemma SumNum(a0: bv64, a1: bv64, a2: bv64, a3: bv64, a4: bv64, a5: bv64, a6: bv64, a7: bv64)
    requires Num(a0) <= 8 && Num(a1) <= 8 && Num(a2) <= 8 && Num(a3) <= 8 && Num(a4) <= 8 && Num(a5) <= 8 && Num(a6) <= 8 && Num(a7) <= 8
    ensures Num(Sum8(a0, a1, a2, a3, a4, a5, a6, a7)) == Num(a0) + Num(a1) + Num(a2) + Num(a3) + Num(a4) + Num(a5) + Num(a6) + Num(a7)
  {
    hide Num, Plus;
    var s1 := Plus(a0, a1); AddNum(a0, a1);
    var s2 := Plus(s1, a2); AddNum(s1, a2);
    var s3 := Plus(s2, a3); AddNum(s2, a3);
    var s4 := Plus(s3, a4); AddNum(s3, a4);
    var s5 := Plus(s4, a5); AddNum(s4, a5);
    var s6 := Plus(s5, a6); AddNum(s5, a6);
    AddNum(s6, a7);
  }

  lemma OneMore(x: bv64, k: nat)
    requires k < 64
    ensures Ones(x, k + 1) == Ones(x, k) + Num(At(x, k)) <= Ones(x, k) + 1
  {
    hide At, Num;
    AtValue(x, k);
  }

  /** One byte of the count. */
  lemma ByteOnes(x: bv64, k: nat)
    requires k <= 56
    ensures Num(ByteSum(x, k)) == Ones(x, k + 8) - Ones(x, k) <= 8
  {
    hide At, Num, Ones, Sum8;
    OneMore(x, k); OneMore(x, k + 1); OneMore(x, k + 2); OneMore(x, k + 3);
    OneMore(x, k + 4); OneMore(x, k + 5); OneMore(x, k + 6); OneMore(x, k + 7);
    SumNum(At(x, k), At(x, k + 1), At(x, k + 2), At(x, k + 3), At(x, k + 4), At(x, k + 5), At(x, k + 6), At(x, k + 7));
  }

  function Tree(b0: bv64, b1: bv64, b2: bv64, b3: bv64, b4: bv64, b5: bv64, b6: bv64, b7: bv64): bv64 {
    Plus(Plus(Plus(b0, b1), Plus(b2, b3)), Plus(Plus(b4, b5), Plus(b6, b7)))
  }

  function TreeOfBytes(x: bv64): bv64 {
    Tree(ByteSum(x, 0), ByteSum(x, 8), ByteSum(x, 16), ByteSum(x, 24), ByteSum(x, 32), ByteSum(x, 40), ByteSum(x, 48), ByteSum(x, 56))
  }

  lemma FieldsAreBytes(x: bv64)
    ensures SumOfFields(Fields(x)) == TreeOfBytes(x)
  {
    hide Fields, Field, Plus, ByteSum;
    Field0(x); Field1(x); Field2(x); Field3(x); Field4(x); Field5(x); Field6(x); Field7(x);
  }

  function SumOfBytes(x: bv64, j: nat): nat
    requires j <= 8
  {
    if j == 0 then 0 else SumOfBytes(x, j - 1) + Num(ByteSum(x, 8 * (j - 1)))
  }

  lemma {:induction false} OnesByBytes(x: bv64, j: nat)
    requires j <= 8
    ensures Ones(x, 8 * j) == SumOfBytes(x, j)
  {
    hide Num, ByteSum;
    if j > 0 {
      OnesByBytes(x, j - 1);
      ByteOnes(x, 8 * (j - 1));
    }
  }

  lemma ByteIsSmall(x: bv64, k: nat)
    requires k <= 56
    ensures Num(ByteSum(x, k)) <= 8
  {
    hide Num, ByteSum, Ones;
    ByteOnes(x, k);
  }

  lemma BytesCount(x: bv64)
    ensures Num(TreeOfBytes(x)) == SumOfBytes(x, 8)
  {
    hide Num, ByteSum, Tree;
    assert SumOfBytes(x, 1) == Num(ByteSum(x, 0));
    assert SumOfBytes(x, 2) == SumOfBytes(x, 1) + Num(ByteSum(x, 8));
    assert SumOfBytes(x, 4) == SumOfBytes(x, 2) + Num(ByteSum(x, 16)) + Num(ByteSum(x, 24));
    assert SumOfBytes(x, 6) == SumOfBytes(x, 4) + Num(ByteSum(x, 32)) + Num(ByteSum(x, 40));
    assert SumOfBytes(x, 8) == SumOfBytes(x, 6) + Num(ByteSum(x, 48)) + Num(ByteSum(x, 56));
    ByteIsSmall(x, 0); ByteIsSmall(x, 8); ByteIsSmall(x, 16); ByteIsSmall(x, 24);
    ByteIsSmall(x, 32); ByteIsSmall(x, 40); ByteIsSmall(x, 48); ByteIsSmall(x, 56);
    TreeNum(ByteSum(x, 0), ByteSum(x, 8), ByteSum(x, 16), ByteSum(x, 24), ByteSum(x, 32), ByteSum(x, 40), ByteSum(x, 48), ByteSum(x, 56));
  }

  /** popcount64 is the number of set bits of every 64-bit word. */
  lemma PopcountCounts(x: bv64)
    ensures Num(Popcount64(x)) == Ones(x, 64)
  {
    hide Num, Popcount64, Ones, TreeOfBytes, SumOfFields, Low7;
    FoldAdds(x);
    FieldsAreBytes(x);
    BytesCount(x);
    OnesByBytes(x, 8);
    Fits(TreeOfBytes(x));
  }

  lemma TreeNum(b0: bv64, b1: bv64, b2: bv64, b3: bv64, b4: bv64, b5: bv64, b6: bv64, b7: bv64)
    requires Num(b0) <= 8 && Num(b1) <= 8 && Num(b2) <= 8 && Num(b3) <= 8 && Num(b4) <= 8 && Num(b5) <= 8 && Num(b6) <= 8 && Num(b7) <= 8
    ensures Num(Tree(b0, b1, b2, b3, b4, b5, b6, b7))
         == Num(b0) + Num(b1) + Num(b2) + Num(b3) + Num(b4) + Num(b5) + Num(b6) + Num(b7)
  {
    hide Num, Plus;
    AddNum(b0, b1); AddNum(b2, b3); AddNum(b4, b5); AddNum(b6, b7);
    AddNum(Plus(b0, b1), Plus(b2, b3)); AddNum(Plus(b4, b5), Plus(b6, b7));
    AddNum(Plus(Plus(b0, b1), Plus(b2, b3)), Plus(Plus(b4, b5), Plus(b6, b7)));
  }

  // ---- shift amounts ----

  lemma AmountValue(k: nat)
    requires k < 64
    ensures k as bv7 as nat == k
  {
  }

  lemma Increment(a: bv7)
    requires a < 127
    ensures (a + 1) as nat == a as nat + 1
  {
  }

  lemma SameNumber(a: bv7, b: bv7)
    requires a as nat == b as nat
    ensures a == b
  {
    assert a as nat as bv7 == a;
    assert b as nat as bv7 == b;
  }

  lemma AmountNext(k: nat)
    requires k < 63
    ensures (k + 1) as bv7 == k as bv7 + 1
  {
    Amount(k); AmountValue(k); AmountValue(k + 1); Increment(k as bv7);
    SameNumber(k as bv7 + 1, (k + 1) as bv7);
  }

  lemma AmountDistinct(b: nat, k: nat)
    requires b < 64 && k < 64
    ensures b as bv7 == k as bv7 <==> b == k
  {
    AmountValue(b); AmountValue(k);
  }

  // ---- shifting ----

  function ShiftR(x: bv64, k: bv7): bv64 requires k < 64 { x >> k }
  function ShiftL(x: bv64, k: bv7): bv64 requires k < 64 { x << k }
  function Half(x: bv64): bv64 { x >> 1 }
  function Twice(x: bv64): bv64 { x << 1 }

  function Right(x: bv64, s: nat): bv64
    requires s < 64
  {
    Amount(s);
    ShiftR(x, s as bv7)
  }

  function Left(x: bv64, s: nat): bv64
    requires s < 64
  {
    Amount(s);
    ShiftL(x, s as bv7)
  }

  lemma RightRaw(x: bv64, k: bv7)
    requires k < 63
    ensures x >> (k + 1) == (x >> 1) >> k
  {
  }

  lemma LeftRaw(x: bv64, k: bv7)
    requires k < 63
    ensures x << (k + 1) == (x << 1) << k
  {
  }

  lemma RightStep(x: bv64, k: bv7)
    requires k < 63
    ensures ShiftR(x, k + 1) == ShiftR(x >> 1, k)
  {
    RightRaw(x, k);
  }

  lemma LeftStep(x: bv64, k: bv7)
    requires k < 63
    ensures ShiftL(x, k + 1) == ShiftL(x << 1, k)
  {
    LeftRaw(x, k);
  }

  lemma RightNext(x: bv64, s: nat)
    requires s < 63
    ensures Right(x, s + 1) == Right(Half(x), s)
  {
    hide ShiftR;
    Amount(s); Amount(s + 1); AmountNext(s);
    RightStep(x, s as bv7);
  }

  lemma LeftNext(x: bv64, s: nat)
    requires s < 63
    ensures Left(x, s + 1) == Left(Twice(x), s)
  {
    hide ShiftL;
    Amount(s); Amount(s + 1); AmountNext(s);
    LeftStep(x, s as bv7);
  }

  lemma NoShift(x: bv64)
    ensures Right(x, 0) == x && Left(x, 0) == x
  {
  }

  lemma MaskHalf(x: bv64, k: bv7)
    requires k < 63
    ensures Mask(x, k + 1) == Mask(Half(x), k)
  {
  }

  lemma MaskTwice(x: bv64, k: bv7)
    requires k < 63
    ensures Mask(Twice(x), k + 1) == Mask(x, k)
  {
  }

  lemma MaskEnds(x: bv64)
    ensures Mask(Half(x), 63) == 0 && Mask(Twice(x), 0) == 0
  {
  }

  lemma HalfBit(x: bv64, k: nat)
    requires k < 64
    ensures Bit(Half(x), k) <==> k < 63 && Bit(x, k + 1)
  {
    hide Mask, Half;
    if k < 63 {
      Amount(k); Amount(k + 1); AmountNext(k);
      MaskHalf(x, k as bv7);
    } else {
      MaskEnds(x);
    }
  }

  lemma TwiceBit(x: bv64, k: nat)
    requires k < 64
    ensures Bit(Twice(x), k) <==> k > 0 && Bit(x, k - 1)
  {
    hide Mask, Twice;
    if k > 0 {
      Amount(k - 1); Amount(k); AmountNext(k - 1);
      MaskTwice(x, (k - 1) as bv7);
    } else {
      MaskEnds(x);
    }
  }

  lemma {:induction false} RightBit(x: bv64, s: nat, k: nat)
    requires s < 64 && k < 64
    ensures Bit(Right(x, s), k) <==> k + s < 64 && Bit(x, k + s)
    decreases s
  {
    hide Bit, Right, Half;
    if s == 0 {
      NoShift(x);
    } else {
      RightNext(x, s - 1);
      RightBit(Half(x), s - 1, k);
      if k + s - 1 < 64 { HalfBit(x, k + s - 1); }
    }
  }

  lemma {:induction false} LeftBit(x: bv64, s: nat, k: nat)
    requires s < 64 && k < 64
    ensures Bit(Left(x, s), k) <==> k >= s && Bit(x, k - s)
    decreases s
  {
    hide Bit, Left, Twice;
    if s == 0 {
      NoShift(x);
    } else {
      LeftNext(x, s - 1);
      LeftBit(Twice(x), s - 1, k);
      if k >= s - 1 { TwiceBit(x, k - s + 1); }
    }
  }

  // ---- joining and comparing ----

  function Or(p: bv64, q: bv64): bv64 { p | q }
  function Xor(p: bv64, q: bv64): bv64 { p ^ q }
  function Not(p: bv64): bv64 { !p }

  lemma OrMask(p: bv64, q: bv64, k: bv7)
    requires k < 64
    ensures Mask(p | q, k) == Mask(p, k) | Mask(q, k)
  {
  }

  lemma XorMask(p: bv64, q: bv64, k: bv7)
    requires k < 64
    ensures Mask(p ^ q, k) == Mask(p, k) ^ Mask(q, k)
  {
  }

  lemma FullMask(k: bv7)
    requires k < 64
    ensures Mask(0xFFFF_FFFF_FFFF_FFFF, k) == 1
  {
  }

  lemma NotIsXor(z: bv64)
    ensures Not(z) == z ^ 0xFFFF_FFFF_FFFF_FFFF
  {
  }

  lemma BitOps(p: bv64, q: bv64)
    requires (p == 0 || p == 1) && (q == 0 || q == 1)
    ensures (p | q == 1 <==> p == 1 || q == 1) && (p ^ q == 1 <==> p != q) && (p ^ q == 0 || p ^ q == 1)
  {
  }

  lemma OrBit(p: bv64, q: bv64, k: nat)
    requires k < 64
    ensures Bit(Or(p, q), k) <==> Bit(p, k) || Bit(q, k)
  {
    AtValue(p, k); AtValue(q, k);
    hide Mask;
    Amount(k);
    OrMask(p, q, k as bv7);
    BitOps(At(p, k), At(q, k));
  }

  lemma XorBit(p: bv64, q: bv64, k: nat)
    requires k < 64
    ensures Bit(p ^ q, k) <==> (Bit(p, k) != Bit(q, k))
  {
    hide Mask;
    AtValue(p, k); AtValue(q, k);
    Amount(k);
    XorMask(p, q, k as bv7);
    BitOps(At(p, k), At(q, k));
  }

  lemma NotBit(p: bv64, k: nat)
    requires k < 64
    ensures Bit(Not(p), k) <==> !Bit(p, k)
  {
    hide Mask, Not;
    Amount(k);
    NotIsXor(p);
    XorBit(p, 0xFFFF_FFFF_FFFF_FFFF, k);
    FullMask(k as bv7);
  }

  lemma ZeroBit(k: nat)
    requires k < 64
    ensures !Bit(0, k)
  {
  }

  lemma UnitBit(k: nat)
    requires k < 64
    ensures Bit(1, k) <==> k == 0
  {
    Amount(k);
    AmountDistinct(k, 0);
    UnitMask(k as bv7);
  }

  lemma UnitMask(k: bv7)
    requires k < 64
    ensures Mask(1, k) == 1 <==> k == 0
  {
  }

  // ---- the three operations of the correlator ----

  /** v with bit b or-ed in. */
  function Put(v: bv64, on: bool, b: nat): bv64
    requires b < 64
  {
    Or(v, Left(if on then 1 else 0, b))
  }

  lemma PutBit(v: bv64, on: bool, b: nat, k: nat)
    requires b < 64 && k < 64
    ensures Bit(Put(v, on, b), k) <==> Bit(v, k) || (k == b && on)
  {
    hide Bit, Or, Left;
    var one: bv64 := if on then 1 else 0;
    OrBit(v, Left(one, b), k);
    LeftBit(one, b, k);
    if k >= b { ZeroBit(k - b); UnitBit(k - b); }
  }

  /** The high part of one word below the low part of the next. */
  function Funnel(lo: bv64, hi: bv64, s: nat): bv64
    requires 0 < s < 64
  {
    Or(Right(lo, s), Left(hi, 64 - s))
  }

  lemma FunnelBit(lo: bv64, hi: bv64, s: nat, k: nat)
    requires 0 < s < 64 && k < 64
    ensures Bit(Funnel(lo, hi, s), k) <==> if k + s < 64 then Bit(lo, k + s) else Bit(hi, k + s - 64)
  {
    hide Bit, Or, Right, Left;
    OrBit(Right(lo, s), Left(hi, 64 - s), k);
    RightBit(lo, s, k);
    LeftBit(hi, 64 - s, k);
  }

  /** Where the two words agree. */
  function Match(p: bv64, q: bv64): bv64 { Not(Xor(p, q)) }

  lemma MatchBit(p: bv64, q: bv64, k: nat)
    requires k < 64
    ensures Bit(Match(p, q), k) <==> (Bit(p, k) <==> Bit(q, k))
  {
    hide Bit, Not;
    NotBit(Xor(p, q), k);
    XorBit(p, q, k);
  }
}
