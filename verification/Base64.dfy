/**
 Base64 of section 4 of RFC 4648: the encoder, the strict decoder of the guest
 diagnostics, and the standard engine's canonical decoder.
 */
module Base64 {
  import opened Words

  const MAX_TEXT: nat := 8192
  const MAX_DECODED: nat := 4096
  const PAD: byte := 0x3d

  type sextet = x: int | 0 <= x < 64

  datatype DecodeError = TextTooLong | BadLength | BadChar | EarlyPadding | BadPadding | DecodedTooLong
  datatype Decoded = Ok(bytes: seq<byte>) | Err(error: DecodeError)

  function B64Val(b: byte): Option<sextet> {
    if 0x41 <= b <= 0x5a then Some(b - 0x41)
    else if 0x61 <= b <= 0x7a then Some(26 + (b - 0x61))
    else if 0x30 <= b <= 0x39 then Some(52 + (b - 0x30))
    else if b == 0x2b then Some(62)
    else if b == 0x2f then Some(63)
    else None
  }

  function B64Char(v: sextet): byte {
    if v < 26 then 0x41 + v
    else if v < 52 then 0x61 + (v - 26)
    else if v < 62 then 0x30 + (v - 52)
    else if v == 62 then 0x2b
    else 0x2f
  }

  lemma CharsAndValues(b: byte, v: sextet)
    ensures B64Val(B64Char(v)) == Some(v) && B64Char(v) != PAD && B64Val(PAD) == None
    ensures B64Val(b) == Some(v) <==> b == B64Char(v)
  {
  }

  /** The alphabet of section 4 of RFC 4648, in order. */
  lemma AlphabetIs(v: sextet)
    ensures B64Char(v) ==
      (Ascii("ABCDEFGHIJKLMNOPQRSTUVWXYZ") + Ascii("abcdefghijklmnopqrstuvwxyz") + Ascii("0123456789") + Ascii("+/"))[v]
  {
    if v < 26 { UpperIs(v); } else if v < 52 { LowerIs(v - 26); } else if v < 62 { DigitIs(v - 52); }
  }

  lemma UpperIs(v: nat)
    requires v < 26
    ensures Ascii("ABCDEFGHIJKLMNOPQRSTUVWXYZ")[v] == 0x41 + v
  {
    assert "ABCDEFGHIJKLMNOPQRSTUVWXYZ"[v] == 'A' + v as char;
  }

  lemma LowerIs(v: nat)
    requires v < 26
    ensures Ascii("abcdefghijklmnopqrstuvwxyz")[v] == 0x61 + v
  {
    assert "abcdefghijklmnopqrstuvwxyz"[v] == 'a' + v as char;
  }

  lemma DigitIs(v: nat)
    requires v < 10
    ensures Ascii("0123456789")[v] == 0x30 + v
  {
    assert "0123456789"[v] == '0' + v as char;
  }

  // ---------- decoding ----------

  // The three bytes of a 24-bit group, from its four sextets.
  function High(v0: sextet, v1: sextet): byte { v0 * 4 + v1 / 16 }
  function Middle(v1: sextet, v2: sextet): byte { (v1 % 16) * 16 + v2 / 4 }
  function Low(v2: sextet, v3: sextet): byte { (v2 % 4) * 64 + v3 }

  /** The group as one number: shifting and masking it gives those bytes. */
  function Group(v0: sextet, v1: sextet, v2: sextet, v3: sextet): nat {
    v0 * 0x4_0000 + v1 * 0x1000 + v2 * 0x40 + v3
  }

  lemma GroupBytes(v0: sextet, v1: sextet, v2: sextet, v3: sextet)
    ensures
      var v := Group(v0, v1, v2, v3);
      (v / 0x1_0000) % 256 == High(v0, v1) && (v / 0x100) % 256 == Middle(v1, v2) && v % 256 == Low(v2, v3)
  {
    GroupSplit(v0, v1, v2, v3);
    ThreeDigits(High(v0, v1), Middle(v1, v2), Low(v2, v3));
  }

  lemma GroupSplit(v0: sextet, v1: sextet, v2: sextet, v3: sextet)
    ensures Group(v0, v1, v2, v3) == High(v0, v1) * 0x1_0000 + Middle(v1, v2) * 0x100 + Low(v2, v3)
  {
  }

  lemma ThreeDigits(h: byte, m: byte, l: byte)
    ensures
      var v: nat := h * 0x1_0000 + m * 0x100 + l;
      (v / 0x1_0000) % 256 == h && (v / 0x100) % 256 == m && v % 256 == l
  {
    var v: nat := h * 0x1_0000 + m * 0x100 + l;
    assert v / 0x100 == h * 0x100 + m;
    assert v / 0x1_0000 == h;
  }

  /** The bytes of a block with the given sextets, short of `pads` at the end. */
  function BlockBytes(v0: sextet, v1: sextet, v2: sextet, v3: sextet, pads: nat): seq<byte> {
    if pads == 0 then [High(v0, v1), Middle(v1, v2), Low(v2, v3)]
    else if pads == 1 then [High(v0, v1), Middle(v1, v2)]
    else [High(v0, v1)]
  }

  function PadOrVal(c: byte): Option<sextet> { if c == PAD then Some(0) else B64Val(c) }

  function BlockPads(c2: byte, c3: byte): nat { if c3 != PAD then 0 else if c2 != PAD then 1 else 2 }

  function DecodeBlock(c0: byte, c1: byte, c2: byte, c3: byte, isLast: bool): Decoded {
    if B64Val(c0).None? || B64Val(c1).None? then Err(BadChar)
    else if (c2 == PAD || c3 == PAD) && !isLast then Err(EarlyPadding)
    else if PadOrVal(c2).None? || PadOrVal(c3).None? then Err(BadChar)
    else if c2 == PAD && c3 != PAD then Err(BadPadding)
    else Ok(BlockBytes(B64Val(c0).value, B64Val(c1).value, PadOrVal(c2).value, PadOrVal(c3).value, BlockPads(c2, c3)))
  }

  function Prepend(out: seq<byte>, r: Decoded): Decoded { if r.Ok? then Ok(out + r.bytes) else r }

  function DecodeBlocks(t: seq<byte>): Decoded
    decreases |t|
  {
    if t == [] then Ok([])
    else if |t| < 4 then Err(BadLength)
    else
      var b := DecodeBlock(t[0], t[1], t[2], t[3], |t| == 4);
      if b.Err? then b else Prepend(b.bytes, DecodeBlocks(t[4..]))
  }

  function StrictDecode(t: seq<byte>): Decoded {
    if |t| > MAX_TEXT then Err(TextTooLong)
    else if |t| % 4 != 0 then Err(BadLength)
    else
      var r := DecodeBlocks(t);
      if r.Ok? && |r.bytes| > MAX_DECODED then Err(DecodedTooLong) else r
  }

  /** One block: four characters are looked up, checked for padding, and shifted together. */
  method DecodeOne(c0: byte, c1: byte, c2: byte, c3: byte, isLast: bool) returns (r: Decoded)
    ensures r == DecodeBlock(c0, c1, c2, c3, isLast)
  {
    var v0, v1 := B64Val(c0), B64Val(c1);
    if v0.None? || v1.None? { return Err(BadChar); }
    var pad2, pad3 := c2 == PAD, c3 == PAD;
    if (pad2 || pad3) && !isLast { return Err(EarlyPadding); }
    var v2, v3 := PadOrVal(c2), PadOrVal(c3);
    if v2.None? || v3.None? { return Err(BadChar); }
    if pad2 && !pad3 { return Err(BadPadding); }
    GroupBytes(v0.value, v1.value, v2.value, v3.value);
    var v := Group(v0.value, v1.value, v2.value, v3.value);
    var out: seq<byte> := [(v / 0x1_0000) % 256];
    if !pad2 { out := out + [(v / 0x100) % 256]; }
    if !pad3 { out := out + [v % 256]; }
    r := Ok(out);
  }

  /** `strict_base64_decode`, block by block. */
  method StrictBase64Decode(t: seq<byte>) returns (r: Decoded)
    ensures r == StrictDecode(t)
  {
    hide DecodeBlock;
    if |t| > MAX_TEXT { return Err(TextTooLong); }
    if |t| % 4 != 0 { return Err(BadLength); }
    var out: seq<byte> := [];
    var blocks := |t| / 4;
    for bi := 0 to blocks
      invariant DecodeBlocks(t) == Prepend(out, DecodeBlocks(t[bi * 4..]))
    {
      var i := bi * 4;
      ghost var rest := t[i..];
      assert rest[4..] == t[i + 4..];
      var c0, c1, c2, c3 := t[i], t[i + 1], t[i + 2], t[i + 3];
      ghost var before := out;
      var block := DecodeOne(c0, c1, c2, c3, bi + 1 == blocks);
      if block.Err? { return block; }
      out := out + block.bytes;
      assert DecodeBlocks(rest) == Prepend(block.bytes, DecodeBlocks(t[i + 4..]));
      PrependTwice(before, block.bytes, DecodeBlocks(t[i + 4..]));
    }
    assert t[blocks * 4..] == [];
    if |out| > MAX_DECODED { return Err(DecodedTooLong); }
    r := Ok(out);
  }

  lemma PrependTwice(a: seq<byte>, b: seq<byte>, r: Decoded)
    ensures Prepend(a, Prepend(b, r)) == Prepend(a + b, r)
  {
    if r.Ok? { assert a + (b + r.bytes) == a + b + r.bytes; }
  }

  // ---------- which texts decode ----------

  predicate InAlphabet(b: byte) { B64Val(b).Some? }

  function Pads(t: seq<byte>): nat {
    if |t| >= 2 && t[|t| - 1] == PAD then (if t[|t| - 2] == PAD then 2 else 1) else 0
  }

  /** Whole blocks over the alphabet, with at most two padding characters, at the very end. */
  ghost predicate WellPadded(t: seq<byte>) {
    |t| % 4 == 0 && forall i :: 0 <= i < |t| - Pads(t) ==> InAlphabet(t[i])
  }

  function DecodedLength(t: seq<byte>): int { |t| / 4 * 3 - Pads(t) }

  lemma {:induction false} BlocksDecode(t: seq<byte>)
    ensures DecodeBlocks(t).Ok? <==> WellPadded(t)
    ensures DecodeBlocks(t).Ok? ==> |DecodeBlocks(t).bytes| == DecodedLength(t)
    decreases |t|
  {
    if 4 < |t| < 8 {
      DropFour(|t|);
      assert DecodeBlocks(t[4..]) == Err(BadLength);
    } else if |t| >= 8 {
      BlocksDecode(t[4..]);
      DropFour(|t|);
      assert Pads(t[4..]) == Pads(t);
      FirstBlock(t);
    } else if |t| == 4 {
      OneBlock(t);
    }
  }

  lemma DropFour(n: nat)
    requires n >= 4
    ensures (n - 4) % 4 == n % 4 && (n - 4) / 4 == n / 4 - 1
  {
  }

  lemma OneBlock(t: seq<byte>)
    requires |t| == 4
    ensures DecodeBlocks(t).Ok? <==> WellPadded(t)
    ensures DecodeBlocks(t).Ok? ==> |DecodeBlocks(t).bytes| == DecodedLength(t)
  {
    CharsAndValues(0, 0);
    assert t[4..] == [] && DecodeBlocks([]) == Ok([]);
    var b := DecodeBlock(t[0], t[1], t[2], t[3], true);
    assert DecodeBlocks(t).Ok? <==> b.Ok?;
    if WellPadded(t) {
      assert InAlphabet(t[0]) && InAlphabet(t[1]);
      assert Pads(t) < 2 ==> InAlphabet(t[2]);
      assert Pads(t) < 1 ==> InAlphabet(t[3]);
    } else {
      var i :| 0 <= i < |t| - Pads(t) && !InAlphabet(t[i]);
      assert b.Err?;
    }
  }

  lemma FirstBlock(t: seq<byte>)
    requires |t| > 4 && Pads(t[4..]) == Pads(t)
    ensures DecodeBlock(t[0], t[1], t[2], t[3], false).Ok?
        <==> InAlphabet(t[0]) && InAlphabet(t[1]) && InAlphabet(t[2]) && InAlphabet(t[3])
    ensures WellPadded(t)
        <==> WellPadded(t[4..]) && InAlphabet(t[0]) && InAlphabet(t[1]) && InAlphabet(t[2]) && InAlphabet(t[3])
    ensures DecodeBlock(t[0], t[1], t[2], t[3], false).Ok? ==> |DecodeBlock(t[0], t[1], t[2], t[3], false).bytes| == 3
  {
    CharsAndValues(0, 0);
    DropFour(|t|);
    var rest := t[4..];
    if WellPadded(t) {
      forall i | 0 <= i < |rest| - Pads(rest) ensures InAlphabet(rest[i]) { assert rest[i] == t[i + 4]; }
    }
    if WellPadded(rest) && InAlphabet(t[0]) && InAlphabet(t[1]) && InAlphabet(t[2]) && InAlphabet(t[3]) {
      forall i | 0 <= i < |t| - Pads(t) ensures InAlphabet(t[i]) { if i >= 4 { assert rest[i - 4] == t[i]; } }
    }
  }

  /** The strict decoder succeeds exactly on short well-padded texts that decode to at most 4096 bytes. */
  lemma StrictDecodeAccepts(t: seq<byte>)
    ensures StrictDecode(t).Ok? <==> |t| <= 8192 && WellPadded(t) && DecodedLength(t) <= 4096
    ensures StrictDecode(t) == Err(TextTooLong) <==> |t| > 8192
    ensures StrictDecode(t) == Err(BadLength) <==> |t| <= 8192 && |t| % 4 != 0
    ensures StrictDecode(t) == Err(DecodedTooLong) <==> |t| <= 8192 && WellPadded(t) && DecodedLength(t) > 4096
  {
    if |t| % 4 == 0 {
      BlocksDecode(t);
      BlockErrors(t);
    }
  }

  lemma {:induction false} BlockErrors(t: seq<byte>)
    requires |t| % 4 == 0
    ensures DecodeBlocks(t).Err? ==> DecodeBlocks(t).error in {BadChar, EarlyPadding, BadPadding}
    decreases |t|
  {
    if t != [] {
      DropFour(|t|);
      BlockErrors(t[4..]);
    }
  }

  // ---------- encoding ----------

  function EncodeBlock(b0: byte, b1: byte, b2: byte): (e: seq<byte>)
    ensures |e| == 4
  {
    [B64Char(b0 / 4), B64Char((b0 % 4) * 16 + b1 / 16), B64Char((b1 % 16) * 4 + b2 / 64), B64Char(b2 % 64)]
  }

  function Encode(bs: seq<byte>): (t: seq<byte>)
    ensures |t| % 4 == 0
    decreases |bs|
  {
    if bs == [] then []
    else if |bs| == 1 then EncodeBlock(bs[0], 0, 0)[..2] + [PAD, PAD]
    else if |bs| == 2 then EncodeBlock(bs[0], bs[1], 0)[..3] + [PAD]
    else EncodeBlock(bs[0], bs[1], bs[2]) + Encode(bs[3..])
  }

  lemma SextetsBack(b0: byte, b1: byte, b2: byte)
    ensures
      var s0, s1, s2, s3 := b0 / 4, (b0 % 4) * 16 + b1 / 16, (b1 % 16) * 4 + b2 / 64, b2 % 64;
      High(s0, s1) == b0 && Middle(s1, s2) == b1 && Low(s2, s3) == b2
  {
    var s1, s2 := (b0 % 4) * 16 + b1 / 16, (b1 % 16) * 4 + b2 / 64;
    assert s1 / 16 == b0 % 4 && s1 % 16 == b1 / 16;
    assert s2 / 4 == b1 % 16 && s2 % 4 == b2 / 64;
  }

  lemma EncodedBlockDecodes(b0: byte, b1: byte, b2: byte)
    ensures
      var e := EncodeBlock(b0, b1, b2);
      && DecodeBlock(e[0], e[1], e[2], e[3], false) == Ok([b0, b1, b2])
      && DecodeBlock(e[0], e[1], e[2], e[3], true) == Ok([b0, b1, b2])
      && (b1 == b2 == 0 ==> DecodeBlock(e[0], e[1], PAD, PAD, true) == Ok([b0]))
      && (b2 == 0 ==> DecodeBlock(e[0], e[1], e[2], PAD, true) == Ok([b0, b1]))
  {
    SextetsBack(b0, b1, b2);
    SextetCharsDecode(b0 / 4, (b0 % 4) * 16 + b1 / 16, (b1 % 16) * 4 + b2 / 64, b2 % 64);
  }

  lemma SextetCharsDecode(s0: sextet, s1: sextet, s2: sextet, s3: sextet)
    ensures
      var c0, c1, c2, c3 := B64Char(s0), B64Char(s1), B64Char(s2), B64Char(s3);
      && DecodeBlock(c0, c1, c2, c3, false) == Ok(BlockBytes(s0, s1, s2, s3, 0))
      && DecodeBlock(c0, c1, c2, c3, true) == Ok(BlockBytes(s0, s1, s2, s3, 0))
      && DecodeBlock(c0, c1, PAD, PAD, true) == Ok(BlockBytes(s0, s1, 0, 0, 2))
      && DecodeBlock(c0, c1, c2, PAD, true) == Ok(BlockBytes(s0, s1, s2, 0, 1))
  {
    CharsAndValues(0, s0);
    CharsAndValues(0, s1);
    CharsAndValues(0, s2);
    CharsAndValues(0, s3);
  }

  /** Decoding undoes encoding. */
  lemma {:induction false} DecodeEncode(bs: seq<byte>)
    ensures DecodeBlocks(Encode(bs)) == Ok(bs)
    decreases |bs|
  {
    hide EncodeBlock, DecodeBlock;
    var t := Encode(bs);
    if bs != [] {
      EncodedBlockDecodes(bs[0], if |bs| > 1 then bs[1] else 0, if |bs| > 2 then bs[2] else 0);
      assert |t| == 4 ==> t[4..] == [] && DecodeBlocks(t[4..]) == Ok([]);
      if |bs| >= 3 {
        DecodeEncode(bs[3..]);
        assert t[4..] == Encode(bs[3..]);
        assert [bs[0], bs[1], bs[2]] + bs[3..] == bs;
      } else if |bs| == 2 {
        assert [bs[0], bs[1]] == bs;
      } else {
        assert [bs[0]] == bs;
      }
    }
  }

  lemma {:induction false} EncodedLength(bs: seq<byte>)
    ensures |Encode(bs)| == (|bs| + 2) / 3 * 4
    decreases |bs|
  {
    if |bs| >= 3 { EncodedLength(bs[3..]); }
  }

  /** The strict decoder undoes the encoder on every byte string within the limit. */
  lemma StrictDecodeEncode(bs: seq<byte>)
    requires |bs| <= MAX_DECODED
    ensures StrictDecode(Encode(bs)) == Ok(bs)
  {
    DecodeEncode(bs);
    EncodedLength(bs);
  }

  // ---------- re-encoding ----------

  /** The bits of the last block that padding leaves unused. */
  function UnusedBits(t: seq<byte>): nat {
    if |t| < 4 then 0
    else
      var v1, v2 := B64Val(t[|t| - 3]), B64Val(t[|t| - 2]);
      if Pads(t) == 2 && v1.Some? then v1.value % 16
      else if Pads(t) == 1 && v2.Some? then v2.value % 4
      else 0
  }

  lemma BytesBack(v0: sextet, v1: sextet, v2: sextet, v3: sextet)
    ensures
      var h, m, l := High(v0, v1), Middle(v1, v2), Low(v2, v3);
      h / 4 == v0 && (h % 4) * 16 + m / 16 == v1 && (m % 16) * 4 + l / 64 == v2 && l % 64 == v3
  {
  }

  lemma CharOfVal(c: byte)
    ensures InAlphabet(c) ==> B64Char(B64Val(c).value) == c
    ensures !InAlphabet(PAD)
  {
  }

  lemma CharsInjective(v: sextet, w: sextet)
    ensures B64Char(v) == B64Char(w) <==> v == w
  {
    CharsAndValues(0, v);
    CharsAndValues(0, w);
  }

  // A sextet with its low four, or low two, bits cleared.
  function Cut16(v: sextet): sextet { v - v % 16 }
  function Cut4(v: sextet): sextet { v - v % 4 }

  /** Re-encoding the bytes of one block: only the sextet cut by padding can differ. */
  lemma ReencodeSextets(v0: sextet, v1: sextet, v2: sextet, v3: sextet)
    ensures Encode(BlockBytes(v0, v1, v2, v3, 0)) == [B64Char(v0), B64Char(v1), B64Char(v2), B64Char(v3)]
    ensures v2 == v3 == 0 ==> Encode(BlockBytes(v0, v1, v2, v3, 2)) == [B64Char(v0), B64Char(Cut16(v1)), PAD, PAD]
    ensures v3 == 0 ==> Encode(BlockBytes(v0, v1, v2, v3, 1)) == [B64Char(v0), B64Char(v1), B64Char(Cut4(v2)), PAD]
  {
    hide B64Char, Encode, High, Middle, Low, Cut16, Cut4;
    BytesBack(v0, v1, v2, v3);
    CutBytes(v0, v1, v2, v3);
    EncodeShort(High(v0, v1), Middle(v1, v2), Low(v2, v3));
  }

  lemma CutBytes(v0: sextet, v1: sextet, v2: sextet, v3: sextet)
    ensures v1 / 16 * 16 == Cut16(v1) && (High(v0, v1) % 4) * 16 == Cut16(v1)
    ensures (Middle(v1, v2) % 16) * 4 == Cut4(v2)
  {
  }

  lemma EncodeShort(b0: byte, b1: byte, b2: byte)
    ensures Encode([b0, b1, b2]) == EncodeBlock(b0, b1, b2)
    ensures Encode([b0, b1])
         == [B64Char(b0 / 4), B64Char((b0 % 4) * 16 + b1 / 16), B64Char((b1 % 16) * 4), PAD]
    ensures Encode([b0]) == [B64Char(b0 / 4), B64Char((b0 % 4) * 16), PAD, PAD]
  {
    hide B64Char;
    assert [b0, b1, b2][3..] == [] && Encode([]) == [];
  }

  lemma ReencodeBlock(t: seq<byte>)
    requires |t| == 4 && DecodeBlocks(t).Ok?
    ensures Encode(DecodeBlocks(t).bytes) == t <==> UnusedBits(t) == 0
  {
    hide B64Char, B64Val, BlockBytes, DecodeBlock, DecodeBlocks, EncodeBlock, Encode;
    OneBlockDecodes(t);
    var v0, v1 := B64Val(t[0]).value, B64Val(t[1]).value;
    var v2, v3 := PadOrVal(t[2]).value, PadOrVal(t[3]).value;
    CharOfVal(t[0]);
    CharOfVal(t[1]);
    CharOfVal(t[2]);
    CharOfVal(t[3]);
    ReencodeSextets(v0, v1, v2, v3);
    CharsInjective(Cut16(v1), v1);
    CharsInjective(Cut4(v2), v2);
    assert t == [t[0], t[1], t[2], t[3]];
  }

  lemma OneBlockDecodes(t: seq<byte>)
    requires |t| == 4 && DecodeBlocks(t).Ok?
    ensures InAlphabet(t[0]) && InAlphabet(t[1]) && PadOrVal(t[2]).Some? && PadOrVal(t[3]).Some?
    ensures t[2] == PAD ==> t[3] == PAD
    ensures DecodeBlocks(t).bytes
         == BlockBytes(B64Val(t[0]).value, B64Val(t[1]).value, PadOrVal(t[2]).value, PadOrVal(t[3]).value,
                       BlockPads(t[2], t[3]))
  {
    var b := DecodeBlock(t[0], t[1], t[2], t[3], true);
    assert t[4..] == [] && DecodeBlocks([]) == Ok([]);
    assert DecodeBlocks(t) == if b.Err? then b else Prepend(b.bytes, DecodeBlocks(t[4..]));
    assert b.Ok? ==> b.bytes + [] == b.bytes;
  }

  /** Re-encoding gives the text back exactly when the unused bits are zero. */
  lemma {:induction false} EncodeDecode(t: seq<byte>)
    requires DecodeBlocks(t).Ok?
    ensures Encode(DecodeBlocks(t).bytes) == t <==> UnusedBits(t) == 0
    decreases |t|
  {
    hide DecodeBlock, EncodeBlock, DecodeBlocks, Encode, UnusedBits;
    if |t| < 4 {
      NoBlock(t);
    } else if |t| == 4 {
      ReencodeBlock(t);
    } else if |t| > 4 {
      var bs, rest := SplitDecode(t);
      EncodeDecode(t[4..]);
      EncodeMore(bs[0], bs[1], bs[2], rest);
      SameTail(t);
      if |t| < 8 { NoBlock(t[4..]); }
      assert bs == [bs[0], bs[1], bs[2]];
      assert t == [t[0], t[1], t[2], t[3]] + t[4..];
    }
  }

  lemma NoBlock(t: seq<byte>)
    requires |t| < 4 && DecodeBlocks(t).Ok?
    ensures t == [] && Encode(DecodeBlocks(t).bytes) == t && UnusedBits(t) == 0
  {
  }

  lemma SameTail(t: seq<byte>)
    requires |t| > 4
    ensures |t| > 7 ==> UnusedBits(t[4..]) == UnusedBits(t)
  {
    assert |t| > 7 ==> Pads(t[4..]) == Pads(t);
  }

  lemma SplitDecode(t: seq<byte>) returns (bs: seq<byte>, rest: seq<byte>)
    requires |t| > 4 && DecodeBlocks(t).Ok?
    ensures |bs| == 3 && DecodeBlocks(t[4..]) == Ok(rest) && DecodeBlocks(t) == Ok(bs + rest)
    ensures EncodeBlock(bs[0], bs[1], bs[2]) == [t[0], t[1], t[2], t[3]]
  {
    hide DecodeBlock, EncodeBlock, B64Val, BlockBytes;
    FullBlockReencodes(t[0], t[1], t[2], t[3]);
    var b := DecodeBlock(t[0], t[1], t[2], t[3], false);
    assert DecodeBlocks(t) == if b.Err? then b else Prepend(b.bytes, DecodeBlocks(t[4..]));
    bs, rest := b.bytes, DecodeBlocks(t[4..]).bytes;
  }

  lemma FullBlockReencodes(c0: byte, c1: byte, c2: byte, c3: byte)
    requires DecodeBlock(c0, c1, c2, c3, false).Ok?
    ensures
      var bs := DecodeBlock(c0, c1, c2, c3, false).bytes;
      |bs| == 3 && EncodeBlock(bs[0], bs[1], bs[2]) == [c0, c1, c2, c3]
  {
    CharOfVal(c0);
    CharOfVal(c1);
    CharOfVal(c2);
    CharOfVal(c3);
    BytesBack(B64Val(c0).value, B64Val(c1).value, B64Val(c2).value, B64Val(c3).value);
  }

  lemma EncodeMore(b0: byte, b1: byte, b2: byte, rest: seq<byte>)
    ensures Encode([b0, b1, b2] + rest) == EncodeBlock(b0, b1, b2) + Encode(rest)
  {
    assert ([b0, b1, b2] + rest)[3..] == rest;
  }

  // ---------- the standard engine ----------

  /** The standard engine decodes padded text with zero unused bits, of any length. */
  function StdDecode(t: seq<byte>): Option<seq<byte>> {
    if DecodeBlocks(t).Ok? && UnusedBits(t) == 0 then Some(DecodeBlocks(t).bytes) else None
  }

  /** It accepts exactly the encoder's outputs. */
  lemma StdDecodeIff(t: seq<byte>, bs: seq<byte>)
    ensures StdDecode(t) == Some(bs) <==> t == Encode(bs)
  {
    DecodeEncode(bs);
    EncodeDecode(Encode(bs));
    if DecodeBlocks(t).Ok? { EncodeDecode(t); }
  }

  /** The examples of section 10 of RFC 4648 that pad by two, by one and not at all. */
  lemma EncodeExamples()
    ensures Encode([0x66]) == Ascii("Zg==")
    ensures Encode([0x66, 0x6f]) == Ascii("Zm8=")
    ensures Encode([0x66, 0x6f, 0x6f]) == Ascii("Zm9v")
  {
    assert [0x66, 0x6f, 0x6f][3..] == [];
  }
}
