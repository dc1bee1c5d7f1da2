/**
 The adapters' cursor as it runs: an index moves over the bytes. None stands for the
 panic of a malformed input.
 */
module JsonCursor {
  import opened Words
  import opened JsonText
  import opened JsonScan

  class Cursor {
    const bytes: Bytes
    var i: nat

    constructor (bytes: Bytes)
      ensures this.bytes == bytes && i == 0 && Valid() && Rest() == bytes
    {
      this.bytes, this.i := bytes, 0;
    }

    ghost predicate Valid()
      reads this
    {
      i <= |bytes|
    }

    ghost function Rest(): Bytes
      requires Valid()
      reads this
    {
      bytes[i..]
    }

    function PeekByte(): (b: Option<byte>)
      requires Valid()
      reads this
      ensures b == if Rest() == [] then None else Some(Rest()[0])
    {
      if i < |bytes| then Some(bytes[i]) else None
    }

    method NextByte() returns (b: Option<byte>)
      requires Valid()
      modifies this
      ensures Valid()
      ensures old(Rest()) == [] ==> b == None && Rest() == []
      ensures old(Rest()) != [] ==> b == Some(old(Rest())[0]) && Rest() == old(Rest())[1..]
    {
      b := PeekByte();
      if b.Some? { i := i + 1; }
    }

    method SkipWhitespace()
      requires Valid()
      modifies this
      ensures Valid() && Rest() == SkipWs(old(Rest()))
    {
      while i < |bytes| && IsWs(bytes[i])
        invariant Valid() && SkipWs(Rest()) == SkipWs(old(Rest()))
      {
        assert bytes[i..][1..] == bytes[i + 1..];
        i := i + 1;
      }
    }

    method ExpectByte(wanted: byte) returns (ok: bool)
      requires Valid()
      modifies this
      ensures Valid() && ok == Expect(old(Rest()), wanted).Some?
      ensures ok ==> Some(Rest()) == Expect(old(Rest()), wanted)
    {
      var b := NextByte();
      ok := b == Some(wanted);
    }

    method ExpectBytes(text: Bytes) returns (ok: bool)
      requires Valid()
      modifies this
      ensures Valid() && ok == ExpectText(old(Rest()), text).Some?
      ensures ok ==> Some(Rest()) == ExpectText(old(Rest()), text)
    {
      ghost var s := Rest();
      for k := 0 to |text|
        invariant Valid() && text[..k] <= s && Rest() == s[k..]
      {
        assert s[k..] != [] ==> s[k..][1..] == s[k + 1..];
        assert text <= s ==> k < |s| && s[k] == text[k];
        var b := NextByte();
        if b != Some(text[k]) { return false; }
        assert text[..k + 1] == text[..k] + [text[k]];
      }
      assert text[..|text|] == text;
      ok := true;
    }

    /** The digit loop of the numbers: the value read onto n. */
    method ParseU32Value() returns (r: Option<nat>)
      requires Valid()
      modifies this
      ensures Valid() && r.Some? == ParseU32(old(Rest())).Some?
      ensures r.Some? ==> Some((r.value, Rest())) == ParseU32(old(Rest()))
    {
      var n: nat := 0;
      var any := false;
      while i < |bytes| && IsDigit(bytes[i])
        invariant Valid() && n < TWO32
        invariant any ==> old(Rest()) != [] && IsDigit(old(Rest())[0])
        invariant !any ==> Rest() == old(Rest()) && n == 0
        invariant DigitsFrom(n, Rest()) == DigitsFrom(0, old(Rest()))
      {
        any := true;
        n := n * 10 + (bytes[i] - 0x30);
        assert bytes[i..][1..] == bytes[i + 1..];
        if n >= TWO32 { return None; }
        i := i + 1;
      }
      r := if any then Some(n) else None;
    }

    method ParseU16Value() returns (r: Option<nat>)
      requires Valid()
      modifies this
      ensures Valid() && r.Some? == ParseU16(old(Rest())).Some?
      ensures r.Some? ==> Some((r.value, Rest())) == ParseU16(old(Rest()))
    {
      r := ParseU32Value();
      if r.Some? && r.value >= 0x1_0000 { r := None; }
    }

    /** `parse_hex4`: four digits shifted in one at a time. */
    method ParseHexFour() returns (r: Option<nat>)
      requires Valid()
      modifies this
      ensures Valid() && r.Some? == ParseHex4(old(Rest())).Some?
      ensures r.Some? ==> Some((r.value, Rest())) == ParseHex4(old(Rest()))
    {
      ghost var s := Rest();
      var v: nat := 0;
      for k := 0 to 4
        invariant Valid() && k <= |s| && Rest() == s[k..]
        invariant forall j :: 0 <= j < k ==> HexDigit(s[j]).Some?
        invariant v == HexSum(s[..k])
      {
        var b := NextByte();
        if b.None? { return None; }
        assert s[k..][1..] == s[k + 1..];
        var d := HexDigit(b.value);
        if d.None? {
          assert |s| >= 4 ==> s[..4][k] in s[..4] && s[..4][k] == s[k];
          return None;
        }
        assert s[..k + 1][..k] == s[..k];
        v := v * 16 + d.value;
      }
      HexSumIsValue(s[..4]);
      r := Some(v);
    }

    method ParseUnicodeEscape() returns (r: Option<nat>)
      requires Valid()
      modifies this
      ensures Valid() && r.Some? == ParseUEscape(old(Rest())).Some?
      ensures r.Some? ==> Some((r.value, Rest())) == ParseUEscape(old(Rest()))
    {
      var a := ParseHexFour();
      if a.None? { return None; }
      if IsHigh(a.value) {
        ghost var t := Rest();
        var b1 := NextByte();
        if b1 != Some(BACKSLASH) { return None; }
        var b2 := NextByte();
        if b2 != Some(LOWER_U) { return None; }
        assert Rest() == t[2..];
        var b := ParseHexFour();
        if b.None? || !IsLow(b.value) { return None; }
        return Some(PairValue(a.value, b.value));
      }
      r := if IsScalar(a.value) then a else None;
    }

    method ParseEscape() returns (r: Option<Bytes>)
      requires Valid() && Rest() != [] && Rest()[0] == BACKSLASH
      modifies this
      ensures Valid() && r.Some? == ParseElement(old(Rest())).Some?
      ensures r.Some? ==> Some((r.value, Rest())) == ParseElement(old(Rest()))
    {
      ghost var s := Rest();
      var _ := NextByte();
      var esc := NextByte();
      if esc.None? { return None; }
      assert Rest() == s[2..] && esc.value == s[1];
      if esc.value == LOWER_U {
        var c := ParseUnicodeEscape();
        if c.None? || !IsScalar(c.value) { return None; }
        return Some(EncodeUtf8(c.value));
      }
      var b := EscapeByte(esc.value);
      r := if b.None? then None else Some([b.value]);
    }

    method ParseStringValue() returns (r: Option<Bytes>)
      requires Valid()
      modifies this
      ensures Valid() && r.Some? == ParseString(old(Rest())).Some?
      ensures r.Some? ==> Some((r.value, Rest())) == ParseString(old(Rest()))
    {
      hide ParseElement, IsUtf8;
      var open := ExpectByte(QUOTE);
      if !open { return None; }
      ghost var body := Rest();
      var out: Bytes := [];
      BeforeNothing(ParseBody(body));
      while i < |bytes|
        invariant Valid() && Before(out, ParseBody(Rest())) == ParseBody(body)
        decreases |Rest()|
      {
        ghost var s := Rest();
        var b := bytes[i];
        if b == QUOTE {
          i := i + 1;
          assert s[1..] == Rest() && out + [] == out;
          return if IsUtf8(out) then Some(out) else None;
        }
        ghost var element := ParseElement(s);
        if b == BACKSLASH {
          var e := ParseEscape();
          if e.None? { return None; }
          BeforeTwice(out, e.value, ParseBody(Rest()));
          out := out + e.value;
        } else {
          RawElement(s);
          if b < 0x20 { return None; }
          i := i + 1;
          assert s[1..] == Rest();
          BeforeTwice(out, [b], ParseBody(Rest()));
          out := out + [b];
        }
      }
      assert Rest() == [];
      r := None;
    }

    method SkipDigitRun() returns (any: bool)
      requires Valid()
      modifies this
      ensures Valid() && any == SomeDigits(old(Rest())).Some?
      ensures any ==> Some(Rest()) == SomeDigits(old(Rest()))
    {
      any := false;
      while i < |bytes| && IsDigit(bytes[i])
        invariant Valid() && SkipDigits(Rest()) == SkipDigits(old(Rest()))
        invariant any ==> old(Rest()) != [] && IsDigit(old(Rest())[0])
        invariant !any ==> Rest() == old(Rest())
      {
        any := true;
        assert bytes[i..][1..] == bytes[i + 1..];
        i := i + 1;
      }
    }

    method SkipNumberText() returns (ok: bool)
      requires Valid()
      modifies this
      ensures Valid() && ok == SkipNumber(old(Rest())).Some?
      ensures ok ==> Some(Rest()) == SkipNumber(old(Rest()))
    {
      hide SomeDigits, SkipFraction, SkipExponent;
      if PeekByte() == Some(MINUS) { var _ := NextByte(); }
      ok := SkipDigitRun();
      if !ok { return; }
      ok := SkipFractionText();
      if !ok { return; }
      ok := SkipExponentText();
    }

    method SkipFractionText() returns (ok: bool)
      requires Valid()
      modifies this
      ensures Valid() && ok == SkipFraction(old(Rest())).Some?
      ensures ok ==> Some(Rest()) == SkipFraction(old(Rest()))
    {
      hide SomeDigits;
      ok := true;
      if PeekByte() == Some(DOT) {
        var _ := NextByte();
        ok := SkipDigitRun();
      }
    }

    method SkipExponentText() returns (ok: bool)
      requires Valid()
      modifies this
      ensures Valid() && ok == SkipExponent(old(Rest())).Some?
      ensures ok ==> Some(Rest()) == SkipExponent(old(Rest()))
    {
      hide SomeDigits;
      ok := true;
      if PeekByte() == Some(0x65) || PeekByte() == Some(0x45) {
        var _ := NextByte();
        if PeekByte() == Some(PLUS) || PeekByte() == Some(MINUS) { var _ := NextByte(); }
        ok := SkipDigitRun();
      }
    }

    method SkipAnyValue() returns (ok: bool)
      requires Valid()
      modifies this
      ensures Valid() && ok == SkipValue(old(Rest())).Some?
      ensures ok ==> Some(Rest()) == SkipValue(old(Rest()))
      decreases |Rest()|, 1
    {
      hide SkipWs, SkipMembers, SkipItems, SkipNumber, ParseString;
      SkipWhitespace();
      ghost var t := Rest();
      var b := PeekByte();
      if b.None? { return false; }
      if b.value == LBRACE {
        ok := SkipObject();
      } else if b.value == LBRACKET {
        ok := SkipArray();
      } else if b.value == QUOTE {
        var s := ParseStringValue();
        ok := s.Some?;
      } else if b.value == MINUS || IsDigit(b.value) {
        ok := SkipNumberText();
      } else if b.value == TRUE_TEXT[0] {
        ok := ExpectBytes(TRUE_TEXT);
      } else if b.value == FALSE_TEXT[0] {
        ok := ExpectBytes(FALSE_TEXT);
      } else if b.value == NULL_TEXT[0] {
        ok := ExpectBytes(NULL_TEXT);
      } else {
        ok := false;
      }
    }

    method SkipObject() returns (ok: bool)
      requires Valid() && Starts(Rest(), LBRACE)
      modifies this
      ensures Valid()
      ensures
        var u := SkipWs(old(Rest())[1..]);
        var r := if Starts(u, RBRACE) then Some(u[1..]) else SkipMembers(u);
        ok == r.Some? && (ok ==> Some(Rest()) == r)
      decreases |Rest()|, 0
    {
      hide SkipWs, ParseKey, SkipValue, SkipItems;
      var _ := ExpectByte(LBRACE);
      SkipWhitespace();
      if PeekByte() == Some(RBRACE) {
        i := i + 1;
        return true;
      }
      ghost var start := Rest();
      while true
        invariant Valid() && |Rest()| < |old(Rest())| && SkipMembers(Rest()) == SkipMembers(start)
        decreases |Rest()|
      {
        ghost var s := Rest();
        var key := ReadKey();
        if key.None? { return false; }
        ok := SkipAnyValue();
        if !ok { return false; }
        SkipWhitespace();
        var b := NextByte();
        if b == Some(RBRACE) { return true; }
        if b != Some(COMMA) { return false; }
      }
    }

    method SkipArray() returns (ok: bool)
      requires Valid() && Starts(Rest(), LBRACKET)
      modifies this
      ensures Valid()
      ensures
        var u := SkipWs(old(Rest())[1..]);
        var r := if Starts(u, RBRACKET) then Some(u[1..]) else SkipItems(u);
        ok == r.Some? && (ok ==> Some(Rest()) == r)
      decreases |Rest()|, 0
    {
      hide SkipWs, SkipValue, SkipMembers;
      var _ := ExpectByte(LBRACKET);
      SkipWhitespace();
      if PeekByte() == Some(RBRACKET) {
        i := i + 1;
        return true;
      }
      ghost var start := Rest();
      while true
        invariant Valid() && |Rest()| < |old(Rest())| && SkipItems(Rest()) == SkipItems(start)
        decreases |Rest()|
      {
        SkipWhitespace();
        ok := SkipAnyValue();
        if !ok { return false; }
        SkipWhitespace();
        var b := NextByte();
        if b == Some(RBRACKET) { return true; }
        if b != Some(COMMA) { return false; }
      }
    }

    /** The key of a member, up to the start of its value. */
    method ReadKey() returns (r: Option<Bytes>)
      requires Valid()
      modifies this
      ensures Valid() && r.Some? == ParseKey(old(Rest())).Some?
      ensures r.Some? ==> Some((r.value, Rest())) == ParseKey(old(Rest()))
    {
      hide SkipWs, ParseString;
      SkipWhitespace();
      r := ParseStringValue();
      if r.None? { return; }
      SkipWhitespace();
      var colon := ExpectByte(COLON);
      if !colon { return None; }
      SkipWhitespace();
    }
  }

  function HexSum(s: Bytes): nat
    requires forall j :: 0 <= j < |s| ==> HexDigit(s[j]).Some?
  {
    if s == [] then 0 else HexSum(s[..|s| - 1]) * 16 + HexDigit(s[|s| - 1]).value
  }

  lemma HexSumIsValue(h: Bytes)
    requires |h| == 4 && forall j :: 0 <= j < |h| ==> HexDigit(h[j]).Some?
    ensures IsHex4(h) && HexSum(h) == HexVal(h)
  {
    assert h[..3][..2] == h[..2] && h[..2][..1] == h[..1] && h[..1][..0] == [];
    assert HexSum(h[..1]) == HexAt(h[0]);
    assert HexSum(h[..2]) == HexAt(h[0]) * 16 + HexAt(h[1]);
    assert HexSum(h[..3]) == HexSum(h[..2]) * 16 + HexAt(h[2]);
  }

  lemma BeforeTwice(a: Bytes, b: Bytes, r: Option<(Bytes, Bytes)>)
    ensures Before(a, Before(b, r)) == Before(a + b, r)
  {
    if r.Some? { assert a + (b + r.value.0) == a + b + r.value.0; }
  }

  lemma BeforeNothing(r: Option<(Bytes, Bytes)>)
    ensures Before([], r) == r
  {
    if r.Some? { assert [] + r.value.0 == r.value.0; }
  }

  lemma RawElement(s: Bytes)
    requires s != [] && s[0] != QUOTE && s[0] != BACKSLASH
    ensures ParseElement(s) == if s[0] < 0x20 then None else Some(([s[0]], s[1..]))
  {
  }
}
