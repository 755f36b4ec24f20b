/** adaptive_huffman_table_manager.py: the two prefix-code tables, the sliding-buffer encoder and
    decoder, and the packed header. */
module PrefixCodes {
  import opened Basics
  import opened BitStrings

  /** Table 0 favours zeros, table 1 alerts; every other byte is an escape and eight bits. */
  datatype Table = Nominal | Critical

  // ---- the code on bit strings ----

  datatype CodeWord = CodeWord(code: nat, codeLen: nat)

  function Lookup(table: Table, val: byte): (w: CodeWord)
    ensures 0 < w.codeLen <= 12 && w.code < Pow2(w.codeLen)
  {
    Powers();
    match table
    case Nominal =>
      if val == 0 then CodeWord(0, 1) else if val == 254 then CodeWord(2, 2) else CodeWord(3 * 256 + val, 10)
    case Critical =>
      if val == 3 then CodeWord(0, 1)
      else if val == 1 then CodeWord(2, 2)
      else if val == 0 then CodeWord(6, 3)
      else if val == 254 then CodeWord(14, 4)
      else CodeWord(15 * 256 + val, 12)
  }

  function Code(table: Table, val: byte): (b: seq<bool>)
    ensures 0 < |b| <= 12
  {
    var w := Lookup(table, val);
    Bits(w.code, w.codeLen)
  }

  function Stream(table: Table, src: seq<byte>): seq<bool> {
    if |src| == 0 then [] else Stream(table, src[..|src| - 1]) + Code(table, src[|src| - 1])
  }

  function Encoded(table: Table, src: seq<byte>): seq<byte> { PackBits(Stream(table, src)) }

  datatype Parsed = Parsed(val: byte, len: nat)

  /** The byte at the front of the string and the bits it takes; None when the string ends inside
      a codeword, where the source shifts by a negative amount. */
  function Front(table: Table, b: seq<bool>): (p: Option<Parsed>)
    ensures p.Some? ==> 0 < p.value.len <= |b| && p.value.len <= 12
  {
    if |b| < 1 then None
    else match table
      case Nominal =>
        if !b[0] then Some(Parsed(0, 1))
        else if |b| < 2 then None
        else if !b[1] then Some(Parsed(254, 2))
        else Literal(b, 2)
      case Critical =>
        if !b[0] then Some(Parsed(3, 1))
        else if |b| < 2 then None
        else if !b[1] then Some(Parsed(1, 2))
        else if |b| < 3 then None
        else if !b[2] then Some(Parsed(0, 3))
        else if |b| < 4 then None
        else if !b[3] then Some(Parsed(254, 4))
        else Literal(b, 4)
  }

  function Literal(b: seq<bool>, escape: nat): Option<Parsed>
    requires escape <= 4
  {
    if |b| < escape + 8 then None else Some(Parsed(OneByte(b[escape..escape + 8]), escape + 8))
  }

  /** Up to n bytes off the front; `starved` when the string ends first. */
  datatype Decoding = Decoding(bytes: seq<byte>, starved: bool)

  function Decoded(table: Table, b: seq<bool>, n: nat): (d: Decoding)
    ensures |d.bytes| <= n && (!d.starved ==> |d.bytes| == n)
  {
    if n == 0 then Decoding([], false)
    else
      match Front(table, b)
      case None => Decoding([], true)
      case Some(p) =>
        var rest := Decoded(table, b[p.len..], n - 1);
        Decoding([p.val] + rest.bytes, rest.starved)
  }

  // ---- the code is a prefix code, and decoding undoes encoding ----

  lemma CodeOf(table: Table, val: byte)
    ensures table == Nominal && val == 0 ==> Code(table, val) == [false]
    ensures table == Nominal && val == 254 ==> Code(table, val) == [true, false]
    ensures table == Nominal && val != 0 && val != 254 ==> Code(table, val) == [true, true] + Bits(val, 8)
    ensures table == Critical && val == 3 ==> Code(table, val) == [false]
    ensures table == Critical && val == 1 ==> Code(table, val) == [true, false]
    ensures table == Critical && val == 0 ==> Code(table, val) == [true, true, false]
    ensures table == Critical && val == 254 ==> Code(table, val) == [true, true, true, false]
    ensures table == Critical && val != 3 && val != 1 && val != 0 && val != 254 ==> Code(table, val) == [true, true, true, true] + Bits(val, 8)
  {
    Powers();
    ShortBits();
    BitsJoin(3, 2, val, 8);
    BitsJoin(15, 4, val, 8);
  }

  lemma ShortBits()
    ensures Bits(0, 1) == [false] && Bits(2, 2) == [true, false] && Bits(3, 2) == [true, true]
    ensures Bits(6, 3) == [true, true, false] && Bits(14, 4) == [true, true, true, false] && Bits(15, 4) == [true, true, true, true]
  {
    assert Bits(1, 1) == [true];
    assert Bits(3, 2) == [true, true];
    assert Bits(7, 3) == [true, true, true];
  }

  /** Whatever follows, a codeword is read back as its byte. */
  lemma FrontOfCode(table: Table, val: byte, rest: seq<bool>)
    ensures Front(table, Code(table, val) + rest) == Some(Parsed(val, |Code(table, val)|))
  {
    hide Code;
    CodeOf(table, val);
    var b := Code(table, val) + rest;
    var escape := if table == Nominal then 2 else 4;
    if |Code(table, val)| == escape + 8 {
      assert b[escape..escape + 8] == Bits(val, 8);
      ByteOfBits(val);
    }
  }

  lemma {:induction false} StreamFirst(table: Table, src: seq<byte>)
    requires |src| > 0
    ensures Stream(table, src) == Code(table, src[0]) + Stream(table, src[1..])
  {
    var n := |src| - 1;
    if n > 0 {
      StreamFirst(table, src[..n]);
      assert src[..n][1..] == src[1..][..n - 1];
      assert src[1..][n - 1] == src[n];
      Associative(Code(table, src[0]), Stream(table, src[1..][..n - 1]), Code(table, src[n]));
    } else {
      assert src[..0] == [] && src[1..] == [];
      assert Stream(table, src[..0]) == [];
    }
  }

  /** Decoding an encoded stream, padding and all, gives the bytes back. */
  lemma {:induction false} DecodingUndoesEncoding(table: Table, src: seq<byte>, rest: seq<bool>)
    ensures Decoded(table, Stream(table, src) + rest, |src|) == Decoding(src, false)
  {
    hide Code, Front, Stream;
    if |src| == 0 {
      assert Decoded(table, Stream(table, src) + rest, 0) == Decoding([], false);
    } else {
      StreamFirst(table, src);
      var code, tail := Code(table, src[0]), Stream(table, src[1..]);
      Associative(code, tail, rest);
      FrontOfCode(table, src[0], tail + rest);
      DropFront(code, tail + rest);
      DecodingUndoesEncoding(table, src[1..], rest);
      assert src == [src[0]] + src[1..];
    }
  }

  lemma DropFront(a: seq<bool>, b: seq<bool>)
    ensures (a + b)[|a|..] == b
  {
  }

  /** Byte for byte: the round trip through the packed stream. */
  lemma RoundTrip(table: Table, src: seq<byte>)
    ensures Decoded(table, BytesBits(Encoded(table, src)), |src|) == Decoding(src, false)
  {
    var b := Stream(table, src);
    PackKeepsBits(b);
    DecodingUndoesEncoding(table, src, Zeros(8 * PaddedLength(|b|) - |b|));
  }

  lemma {:induction false} StreamLength(table: Table, src: seq<byte>)
    ensures |Stream(table, src)| <= 12 * |src|
    ensures table == Nominal ==> |Stream(table, src)| <= 10 * |src|
  {
    if |src| > 0 {
      StreamLength(table, src[..|src| - 1]);
      CodeOf(table, src[|src| - 1]);
    }
  }

  /** Any run-length payload the header can describe fits in 191 of the buffer's 250 bytes. */
  lemma PayloadFits(table: Table, src: seq<byte>)
    requires |src| <= 127
    ensures |Encoded(table, src)| <= 191
  {
    StreamLength(table, src);
  }

  // ---- the encoder ----

  lemma {:induction false} BufferBound(a: nat, k: nat, c: nat, m: nat)
    requires a < Pow2(k) && c < Pow2(m)
    ensures Shl(a, m) + c < Pow2(k + m)
  {
    hide Shl;
    if m > 0 {
      BufferBound(a, k, c / 2, m - 1);
      ShlStep(a, m - 1);
    } else {
      ShlStep(a, 0);
    }
  }

  /** Moving the top eight of bc + 8 buffered bits to the output. */
  lemma Emit(sent: seq<byte>, buf: nat, bc: nat)
    ensures BytesBits(sent + [Low(Shr(buf, bc), 8) as byte]) + Bits(Low(buf, bc), bc) == BytesBits(sent) + Bits(buf, bc + 8)
  {
    hide Shr, Low;
    Powers();
    var top := Low(Shr(buf, bc), 8);
    BitsSplit(buf, 8, bc);
    BitsMask(Shr(buf, bc), 8);
    BytesBitsAppend(sent, [top]);
    OneByteBits(top);
    Associative(BytesBits(sent), Bits(top, 8), Bits(Low(buf, bc), bc));
  }

  lemma OneByteBits(v: byte)
    ensures BytesBits([v]) == Bits(v, 8)
  {
    assert BytesBits([v]) == Bits(v, 8) + BytesBits([]);
  }

  /** The last, zero-filled byte. */
  lemma Flush(buf: nat, bc: nat)
    requires 0 < bc < 8
    ensures Low(Shl(buf, 8 - bc), 8) < 256
    ensures PackBits(Bits(buf, bc)) == [Low(Shl(buf, 8 - bc), 8)]
  {
    hide Shl, Low;
    Powers();
    var v := Shl(buf, 8 - bc);
    BitsJoin(buf, bc, 0, 8 - bc);
    BitsZero(8 - bc);
    BitsMask(v, 8);
    ByteOfBits(Low(v, 8));
  }

  lemma {:induction false} StreamGrows(table: Table, src: seq<byte>, i: nat)
    requires i <= |src|
    ensures |Stream(table, src[..i])| <= |Stream(table, src)|
    decreases |src| - i
  {
    if i < |src| {
      StreamGrows(table, src, i + 1);
      assert src[..i + 1][..i] == src[..i];
    } else {
      assert src[..i] == src;
    }
  }

  lemma BytesBitsLength(bytes: seq<byte>, tail: seq<bool>, all: seq<bool>)
    requires BytesBits(bytes) + tail == all
    ensures 8 * |bytes| + |tail| == |all|
  {
  }

  method Append(dst: array<byte>, n: nat, val: byte) returns (n': nat)
    requires n < dst.Length
    modifies dst
    ensures n' == n + 1 && dst[..n'] == old(dst[..n]) + [val]
    ensures forall k :: n' <= k < dst.Length ==> dst[k] == old(dst[k])
  {
    dst[n] := val;
    n' := n + 1;
  }

  /** Whole bytes leave the buffer, the highest first, until one would be written past the end. */
  method Drain(dst: array<byte>, buf: nat, count: nat, written: nat, ghost stream: seq<bool>)
    returns (bitBuf: nat, bitCount: nat, writeIdx: nat, overrun: bool)
    requires written <= dst.Length && buf < Pow2(count)
    requires BytesBits(dst[..written]) + Bits(buf, count) == stream
    modifies dst
    ensures overrun ==> |stream| >= 8 * dst.Length + 8
    ensures !overrun ==> written <= writeIdx <= dst.Length && bitCount <= 7 && bitBuf < Pow2(bitCount)
    ensures !overrun ==> BytesBits(dst[..writeIdx]) + Bits(bitBuf, bitCount) == stream
    ensures !overrun ==> forall k :: writeIdx <= k < dst.Length ==> dst[k] == old(dst[k])
  {
    hide Shr, Low, Pow2, Bits, BytesBits;
    bitBuf, bitCount, writeIdx, overrun := buf, count, written, false;
    while bitCount >= 8
      invariant written <= writeIdx <= dst.Length && bitBuf < Pow2(bitCount)
      invariant BytesBits(dst[..writeIdx]) + Bits(bitBuf, bitCount) == stream
      invariant forall k :: writeIdx <= k < dst.Length ==> dst[k] == old(dst[k])
    {
      BytesBitsLength(dst[..writeIdx], Bits(bitBuf, bitCount), stream);
      if writeIdx == dst.Length {
        overrun := true;
        return;
      }
      bitCount := bitCount - 8;
      Emit(dst[..writeIdx], bitBuf, bitCount);
      writeIdx := Append(dst, writeIdx, LowByte(Shr(bitBuf, bitCount)));
      bitBuf := Low(bitBuf, bitCount);
    }
  }

  /** `overrun` is set exactly where the source, which checks no bounds, writes past dst. */
  method Encode(src: seq<byte>, table: Table, dst: array<byte>) returns (writeIdx: nat, overrun: bool)
    modifies dst
    ensures overrun <==> |Encoded(table, src)| > dst.Length
    ensures !overrun ==> writeIdx == |Encoded(table, src)| && dst[..writeIdx] == Encoded(table, src)
    ensures !overrun ==> forall k :: writeIdx <= k < dst.Length ==> dst[k] == old(dst[k])
  {
    hide Shl, Shr, Low, Pow2, Bits, BytesBits, PackBits, Code, Lookup;
    var bitBuf: nat, bitCount: nat := 0, 0;
    writeIdx, overrun := 0, false;
    Start(dst[..0]);
    for i := 0 to |src|
      invariant bitCount <= 7 && bitBuf < Pow2(bitCount)
      invariant writeIdx <= dst.Length && !overrun
      invariant BytesBits(dst[..writeIdx]) + Bits(bitBuf, bitCount) == Stream(table, src[..i])
      invariant forall k :: writeIdx <= k < dst.Length ==> dst[k] == old(dst[k])
    {
      assert src[..i + 1][..i] == src[..i];
      StreamGrows(table, src, i + 1);
      var w := Lookup(table, src[i]);
      CodeIsLookup(table, src[i]);
      BitsJoin(bitBuf, bitCount, w.code, w.codeLen);
      BufferBound(bitBuf, bitCount, w.code, w.codeLen);
      Associative(BytesBits(dst[..writeIdx]), Bits(bitBuf, bitCount), Bits(w.code, w.codeLen));
      bitBuf := Shl(bitBuf, w.codeLen) + w.code;
      bitCount := bitCount + w.codeLen;
      bitBuf, bitCount, writeIdx, overrun := Drain(dst, bitBuf, bitCount, writeIdx, Stream(table, src[..i + 1]));
      if overrun { return; }
    }
    assert src[..|src|] == src;
    PackWhole(dst[..writeIdx], Bits(bitBuf, bitCount));
    BytesBitsLength(dst[..writeIdx], Bits(bitBuf, bitCount), Stream(table, src));
    if bitCount > 0 {
      if writeIdx == dst.Length {
        overrun := true;
        return;
      }
      Flush(bitBuf, bitCount);
      writeIdx := Append(dst, writeIdx, LowByte(Shl(bitBuf, 8 - bitCount)));
    } else {
      PackNothing(Bits(bitBuf, bitCount));
    }
  }

  lemma Start(none: seq<byte>)
    requires none == []
    ensures BytesBits(none) + Bits(0, 0) == [] && 0 < Pow2(0)
  {
  }

  lemma CodeIsLookup(table: Table, val: byte)
    ensures Code(table, val) == Bits(Lookup(table, val).code, Lookup(table, val).codeLen)
  {
  }

  lemma PackNothing(b: seq<bool>)
    requires |b| == 0
    ensures PackBits(b) == []
  {
  }

  /** v & 0xFF. */
  function LowByte(v: nat): (r: byte)
    ensures r == Low(v, 8)
  {
    Powers();
    Low(v, 8)
  }

  // ---- the decoder ----

  /** The len bits that start `from` places below the top of the buffer. */
  lemma Window(buf: nat, bc: nat, from: nat, len: nat)
    requires from + len <= bc
    ensures Bits(Low(Shr(buf, bc - from - len), len), len) == Bits(buf, bc)[from..from + len]
  {
    hide Shr, Low, Bits;
    var below := bc - from - len;
    BitsSplit(buf, from + len, below);
    BitsSplit(Shr(buf, below), from, len);
  }

  lemma TopValue(buf: nat, bc: nat, k: nat)
    requires k <= bc
    ensures Low(Shr(buf, bc - k), k) == Value(Bits(buf, bc)[..k])
  {
    Window(buf, bc, 0, k);
    ValueOfBits(Low(Shr(buf, bc - k), k), k);
  }

  lemma ShortValues(b: seq<bool>)
    ensures |b| == 1 ==> (Value(b) == 0 <==> !b[0])
    ensures |b| == 2 ==> (Value(b) == 2 <==> b == [true, false]) && (Value(b) == 3 <==> b == [true, true])
    ensures |b| == 3 ==> (Value(b) == 6 <==> b == [true, true, false])
    ensures |b| == 4 ==> (Value(b) == 14 <==> b == [true, true, true, false]) && (Value(b) == 15 <==> b == [true, true, true, true])
  {
    ShortBits();
    Powers();
    BitsOfValue(b);
    ValueOfBits(2, 2); ValueOfBits(3, 2); ValueOfBits(6, 3); ValueOfBits(14, 4); ValueOfBits(15, 4);
    if |b| == 1 { assert Value(b[..0]) == 0; }
  }

  /** A codeword lies within twelve bits, so more input does not change the front. */
  lemma FrontIsLocal(table: Table, b: seq<bool>, more: seq<bool>)
    requires |b| >= 12 || |more| == 0
    ensures Front(table, b + more) == Front(table, b)
  {
    if |more| == 0 {
      assert b + more == b;
    } else {
      assert (b + more)[2..10] == b[2..10];
      assert (b + more)[4..12] == b[4..12];
    }
  }

  /** One codeword off the top of the buffer; `ok` is false where the source would shift by a
      negative amount. */
  method ReadCode(bitBuf: nat, bitCount: nat, table: Table) returns (ok: bool, val: byte, len: nat)
    ensures Front(table, Bits(bitBuf, bitCount)) == if ok then Some(Parsed(val, len)) else None
  {
    hide Shr, Low, Bits, Value;
    ghost var b := Bits(bitBuf, bitCount);
    ok, val, len := false, 0, 0;
    if bitCount < 1 { return; }
    TopValue(bitBuf, bitCount, 1); ShortValues(b[..1]);
    var bit1 := Low(Shr(bitBuf, bitCount - 1), 1);
    if bit1 == 0 { return true, if table == Nominal then 0 else 3, 1; }
    if bitCount < 2 { return; }
    assert b[..2] == [true, b[1]];
    TopValue(bitBuf, bitCount, 2); ShortValues(b[..2]);
    var bit2 := Low(Shr(bitBuf, bitCount - 2), 2);
    if bit2 == 2 { return true, if table == Nominal then 254 else 1, 2; }
    if table == Nominal {
      if bit2 == 3 {
        ok, val, len := ReadLiteral(bitBuf, bitCount, 2);
        return;
      } else {
        assert false;
      }
    }
    assert b[..2][1];
    if bitCount < 3 { return; }
    assert b[..3] == [true, true, b[2]];
    TopValue(bitBuf, bitCount, 3); ShortValues(b[..3]);
    var bit3 := Low(Shr(bitBuf, bitCount - 3), 3);
    if bit3 == 6 { return true, 0, 3; }
    assert b[..3][2];
    if bitCount < 4 { return; }
    assert b[..4] == [true, true, true, b[3]];
    TopValue(bitBuf, bitCount, 4); ShortValues(b[..4]);
    var bit4 := Low(Shr(bitBuf, bitCount - 4), 4);
    if bit4 == 14 {
      return true, 254, 4;
    } else if bit4 == 15 {
      ok, val, len := ReadLiteral(bitBuf, bitCount, 4);
    } else {
      assert false;
    }
  }

  method ReadLiteral(bitBuf: nat, bitCount: nat, escape: nat) returns (ok: bool, val: byte, len: nat)
    requires escape <= 4
    ensures Literal(Bits(bitBuf, bitCount), escape) == if ok then Some(Parsed(val, len)) else None
  {
    ok, val, len := false, 0, 0;
    if bitCount < escape + 8 { return; }
    Window(bitBuf, bitCount, escape, 8);
    ok, val, len := true, LowByte(Shr(bitBuf, bitCount - escape - 8)), escape + 8;
    ByteOfBits(val);
  }

  /** Reads bytes until twelve bits are buffered or the input ends. */
  method Fill(src: seq<byte>, buf: nat, count: nat, read: nat) returns (bitBuf: nat, bitCount: nat, readIdx: nat)
    requires read <= |src|
    ensures read <= readIdx <= |src|
    ensures Bits(bitBuf, bitCount) + BytesBits(src[readIdx..]) == Bits(buf, count) + BytesBits(src[read..])
    ensures bitCount >= 12 || |BytesBits(src[readIdx..])| == 0
  {
    hide Shl, Bits, BytesBits;
    bitBuf, bitCount, readIdx := buf, count, read;
    while bitCount < 12 && readIdx < |src|
      invariant read <= readIdx <= |src|
      invariant Bits(bitBuf, bitCount) + BytesBits(src[readIdx..]) == Bits(buf, count) + BytesBits(src[read..])
    {
      var byteVal := src[readIdx];
      Refill(bitBuf, bitCount, src[readIdx..]);
      assert src[readIdx..][1..] == src[readIdx + 1..];
      readIdx := readIdx + 1;
      bitBuf := Shl(bitBuf, 8) + byteVal;
      bitCount := bitCount + 8;
    }
    NoMore(src[readIdx..]);
  }

  lemma Consume(buf: nat, bc: nat, tail: seq<bool>, len: nat)
    requires len <= bc
    ensures (Bits(buf, bc) + tail)[len..] == Bits(Low(buf, bc - len), bc - len) + tail
  {
    hide Bits, Low, Shr;
    BitsSplit(buf, len, bc - len);
  }

  method Decode(src: seq<byte>, table: Table, expectedDecLen: nat, dst: array<byte>) returns (writeIdx: nat, starved: bool)
    requires expectedDecLen <= dst.Length
    modifies dst
    ensures writeIdx <= expectedDecLen
    ensures Decoding(dst[..writeIdx], starved) == Decoded(table, BytesBits(src), expectedDecLen)
    ensures forall k :: writeIdx <= k < dst.Length ==> dst[k] == old(dst[k])
  {
    hide Shl, Shr, Low, Bits, BytesBits, Front, Decoded, Joined;
    var bitBuf: nat, bitCount: nat, readIdx: nat := 0, 0, 0;
    writeIdx, starved := 0, false;
    assert src[0..] == src;
    ghost var rest := BytesBits(src);
    ghost var all := Decoded(table, rest, expectedDecLen);
    EmptyBits();
    JoinedEnds(table, rest, expectedDecLen, dst[..0]);
    while writeIdx < expectedDecLen
      invariant writeIdx <= expectedDecLen && readIdx <= |src|
      invariant rest == Bits(bitBuf, bitCount) + BytesBits(src[readIdx..])
      invariant Joined(dst[..writeIdx], Decoded(table, rest, expectedDecLen - writeIdx)) == all
      invariant forall k :: writeIdx <= k < dst.Length ==> dst[k] == old(dst[k])
    {
      bitBuf, bitCount, readIdx := Fill(src, bitBuf, bitCount, readIdx);
      FrontIsLocal(table, Bits(bitBuf, bitCount), BytesBits(src[readIdx..]));
      var ok, val, len := ReadCode(bitBuf, bitCount, table);
      JoinedEnds(table, rest, expectedDecLen - writeIdx, dst[..writeIdx]);
      if !ok {
        starved := true;
        return;
      }
      DecodedStep(table, rest, expectedDecLen - writeIdx, dst[..writeIdx], val, len);
      writeIdx := Append(dst, writeIdx, val);
      Consume(bitBuf, bitCount, BytesBits(src[readIdx..]), len);
      bitCount := bitCount - len;
      bitBuf := Low(bitBuf, bitCount);
      rest := rest[len..];
    }
    JoinedEnds(table, rest, 0, dst[..writeIdx]);
  }

  lemma JoinedEnds(table: Table, b: seq<bool>, n: nat, front: seq<byte>)
    ensures n > 0 && Front(table, b) == None ==> Joined(front, Decoded(table, b, n)) == Decoding(front, true)
    ensures n == 0 ==> Joined(front, Decoded(table, b, n)) == Decoding(front, false)
    ensures front == [] ==> Joined(front, Decoded(table, b, n)) == Decoded(table, b, n)
  {
    hide Front;
  }

  function Joined(front: seq<byte>, d: Decoding): Decoding { Decoding(front + d.bytes, d.starved) }

  lemma DecodedStep(table: Table, b: seq<bool>, n: nat, front: seq<byte>, val: byte, len: nat)
    requires n > 0 && Front(table, b) == Some(Parsed(val, len))
    ensures Joined(front + [val], Decoded(table, b[len..], n - 1)) == Joined(front, Decoded(table, b, n))
  {
    hide Front;
    assert front + [val] + Decoded(table, b[len..], n - 1).bytes == front + ([val] + Decoded(table, b[len..], n - 1).bytes);
  }

  lemma EmptyBits()
    ensures Bits(0, 0) == []
  {
  }

  lemma NoMore(bytes: seq<byte>)
    ensures bytes == [] ==> |BytesBits(bytes)| == 0
  {
  }

  lemma Refill(buf: nat, bc: nat, bytes: seq<byte>)
    requires |bytes| > 0
    ensures Bits(Shl(buf, 8) + bytes[0], bc + 8) + BytesBits(bytes[1..]) == Bits(buf, bc) + BytesBits(bytes)
  {
    Powers();
    BitsJoin(buf, bc, bytes[0], 8);
    Associative(Bits(buf, bc), Bits(bytes[0], 8), BytesBits(bytes[1..]));
  }

  // ---- the packed header ----

  const BUFFER := 250

  /** len | (table_id << 7), as a single byte; None where bytes([...]) raises. */
  function Header(len: nat, table: Table): Option<byte> {
    if len >= 256 then None else if table == Critical && len < 128 then Some(len + 128) else Some(len)
  }

  function HeaderTable(header: byte): Table { if header / 128 == 1 then Critical else Nominal }
  function HeaderLength(header: byte): nat { header % 128 }

  /** The header describes its payload exactly when the length needs at most seven bits. */
  lemma HeaderRoundTrip(len: nat, table: Table)
    ensures (Header(len, table).Some? && HeaderTable(Header(len, table).value) == table && HeaderLength(Header(len, table).value) == len)
       <==> len <= 127
  {
  }

  function ThreatTable(threat: byte): Table { if threat == 3 then Critical else Nominal }

  /** compress either frames a payload, raises, or has written past its buffer. */
  datatype Framing = Framed(payload: seq<byte>) | Raised | Overrun

  /** compress after the run-length stage: it raises for a frame without a threat byte and for a
      payload the header byte cannot hold. */
  function Compressed(frame: seq<byte>, rle: seq<byte>): Framing {
    if |frame| < 2 then Raised
    else
      var table := ThreatTable(frame[1]);
      if |Encoded(table, rle)| > BUFFER then Overrun
      else
        match Header(|rle|, table)
        case None => Raised
        case Some(h) => Framed([h] + Encoded(table, rle))
  }

  /** decompress up to the run-length stage; None for an empty payload. */
  function Decompressed(payload: seq<byte>): Option<Decoding> {
    if |payload| == 0 then None
    else Some(Decoded(HeaderTable(payload[0]), BytesBits(payload[1..]), HeaderLength(payload[0])))
  }

  /** Decompressing a compressed frame gives the run-length payload back exactly when that payload
      has at most 127 bytes: a longer one is misread or cannot be framed at all. */
  lemma PayloadRoundTrip(frame: seq<byte>, rle: seq<byte>)
    requires |frame| >= 2
    ensures (Compressed(frame, rle).Framed? && Decompressed(Compressed(frame, rle).payload) == Some(Decoding(rle, false)))
       <==> |rle| <= 127
  {
    var table := ThreatTable(frame[1]);
    HeaderRoundTrip(|rle|, table);
    if |rle| <= 127 {
      RoundTrip(table, rle);
      PayloadFits(table, rle);
    }
    if |rle| < 256 {
      var h := Header(|rle|, table).value;
      assert ([h] + Encoded(table, rle))[1..] == Encoded(table, rle);
    }
  }

  /** The top bit of the header marks the frames of threat level 3, and no others. */
  lemma HeaderMarksCriticalFrames(frame: seq<byte>, rle: seq<byte>)
    requires |frame| >= 2 && |rle| <= 127
    ensures Compressed(frame, rle).Framed? && |Compressed(frame, rle).payload| >= 1
    ensures Compressed(frame, rle).payload[0] >= 128 <==> frame[1] == 3
  {
    PayloadFits(ThreatTable(frame[1]), rle);
    hide Encoded;
  }

  method Compress(frame: seq<byte>, rle: seq<byte>, buf: array<byte>) returns (result: Framing)
    requires buf.Length == BUFFER
    modifies buf
    ensures result == Compressed(frame, rle)
  {
    if |frame| < 2 { return Raised; }
    var table := ThreatTable(frame[1]);
    var huffLen, overrun := Encode(rle, table, buf);
    if overrun { return Overrun; }
    var header := Header(|rle|, table);
    if header.None? { return Raised; }
    result := Framed([header.value] + buf[..huffLen]);
  }

  method Decompress(payload: seq<byte>, buf: array<byte>) returns (rle: Option<Decoding>)
    requires buf.Length == BUFFER
    modifies buf
    ensures rle == Decompressed(payload)
  {
    if |payload| == 0 { return None; }
    var decLen, starved := Decode(payload[1..], HeaderTable(payload[0]), HeaderLength(payload[0]), buf);
    rle := Some(Decoding(buf[..decLen], starved));
  }
}
