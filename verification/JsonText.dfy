/**
 JSON strings and decimal numbers as the HTTP adapters read and print them:
 UTF-8, escapes, surrogate pairs (section 7 of RFC 8259) and u32 numbers.
 Parsers work on the remaining bytes and return what is left.
 */
module JsonText {
  import opened Words

  type Bytes = seq<byte>

  const QUOTE: byte := 0x22
  const BACKSLASH: byte := 0x5c
  const SLASH: byte := 0x2f
  const LOWER_U: byte := 0x75
  const ZERO: byte := 0x30

  // ---------- UTF-8 ----------

  predicate Tail(b: byte) { 0x80 <= b <= 0xbf }

  /** The length of the UTF-8 character s starts with; 0 if there is none. */
  function CharLen(s: Bytes): (n: nat)
    ensures n <= 4 && n <= |s|
  {
    if s == [] then 0
    else if s[0] < 0x80 then 1
    else if 0xc2 <= s[0] <= 0xdf && |s| >= 2 && Tail(s[1]) then 2
    else if 0xe0 <= s[0] <= 0xef && |s| >= 3 && Tail(s[1]) && Tail(s[2])
            && (s[0] == 0xe0 ==> s[1] >= 0xa0) && (s[0] == 0xed ==> s[1] <= 0x9f) then 3
    else if 0xf0 <= s[0] <= 0xf4 && |s| >= 4 && Tail(s[1]) && Tail(s[2]) && Tail(s[3])
            && (s[0] == 0xf0 ==> s[1] >= 0x90) && (s[0] == 0xf4 ==> s[1] <= 0x8f) then 4
    else 0
  }

  predicate IsUtf8(s: Bytes)
    decreases |s|
  {
    s == [] || (CharLen(s) > 0 && IsUtf8(s[CharLen(s)..]))
  }

  predicate IsScalar(c: nat) { c < 0xd800 || 0xe000 <= c < 0x11_0000 }

  function EncodeUtf8(c: nat): Bytes
    requires IsScalar(c)
  {
    if c < 0x80 then [c]
    else if c < 0x800 then [0xc0 + c / 0x40, 0x80 + c % 0x40]
    else if c < 0x1_0000 then [0xe0 + c / 0x1000, 0x80 + (c / 0x40) % 0x40, 0x80 + c % 0x40]
    else [0xf0 + c / 0x4_0000, 0x80 + (c / 0x1000) % 0x40, 0x80 + (c / 0x40) % 0x40, 0x80 + c % 0x40]
  }

  lemma EncodedIsUtf8(c: nat)
    requires IsScalar(c)
    ensures CharLen(EncodeUtf8(c)) == |EncodeUtf8(c)| > 0 && IsUtf8(EncodeUtf8(c))
  {
    hide EncodeUtf8;
    var e := EncodeUtf8(c);
    if c < 0x1_0000 { ShortEncoding(c); } else { LongEncoding(c); }
    hide CharLen;
    assert e[|e|..] == [];
  }

  lemma ShortEncoding(c: nat)
    requires IsScalar(c) && c < 0x1_0000
    ensures CharLen(EncodeUtf8(c)) == |EncodeUtf8(c)| > 0
  {
    var lead, mid := c / 0x1000, (c / 0x40) % 0x40;
    assert c >= 0x800 ==> c == lead * 0x1000 + mid * 0x40 + c % 0x40 by {
      if c >= 0x800 { SixBits(c, 0x40); }
    }
  }

  lemma LongEncoding(c: nat)
    requires 0x1_0000 <= c < 0x11_0000
    ensures CharLen(EncodeUtf8(c)) == |EncodeUtf8(c)| == 4
  {
    SixBits(c, 0x1000);
  }

  /** The code point a UTF-8 character spells: the payload bits of its bytes (section 3 of RFC 3629). */
  function CodePoint(e: Bytes): nat
    requires CharLen(e) == |e| > 0
  {
    if |e| == 1 then e[0]
    else if |e| == 2 then MoreBits(e[0] - 0xc0, e[1])
    else if |e| == 3 then MoreBits(MoreBits(e[0] - 0xe0, e[1]), e[2])
    else MoreBits(MoreBits(MoreBits(e[0] - 0xf0, e[1]), e[2]), e[3])
  }

  function MoreBits(hi: nat, b: byte): nat
    requires Tail(b)
  {
    var low: nat := b - 0x80;
    hi * 64 + low
  }

  /** Encoding a scalar gives the one character that spells it. */
  lemma EncodedSpells(c: nat)
    requires IsScalar(c)
    ensures CharLen(EncodeUtf8(c)) == |EncodeUtf8(c)| > 0 && CodePoint(EncodeUtf8(c)) == c
  {
    EncodedIsUtf8(c);
    if c >= 0x1_0000 { SixBits(c, 0x1000); }
    if c >= 0x800 { SixBits(c, 0x40); }
  }

  lemma SixBits(c: nat, unit: nat)
    requires unit == 0x40 || unit == 0x1000
    ensures c / unit == c / (unit * 0x40) * 0x40 + (c / unit) % 0x40
  {
  }

  /** Every character is the encoding of the scalar it spells: none is overlong or a surrogate. */
  lemma CharIsEncoded(s: Bytes)
    requires CharLen(s) > 0
    ensures
      var e := s[..CharLen(s)];
      CharLen(e) == |e| && IsScalar(CodePoint(e)) && EncodeUtf8(CodePoint(e)) == e
  {
    var e := s[..CharLen(s)];
    CutChar(s);
    if |e| == 4 { LongCharIsEncoded(e); } else { ShortCharIsEncoded(e); }
  }

  lemma CutChar(s: Bytes)
    requires CharLen(s) > 0
    ensures CharLen(s[..CharLen(s)]) == CharLen(s)
  {
  }

  lemma ShortCharIsEncoded(e: Bytes)
    requires 0 < CharLen(e) == |e| < 4
    ensures IsScalar(CodePoint(e)) && EncodeUtf8(CodePoint(e)) == e
  {
    hide MoreBits;
    if |e| > 1 {
      var lead: nat := if |e| == 2 then e[0] - 0xc0 else e[0] - 0xe0;
      BitsBack(lead, e[1]);
      if |e| == 3 { BitsBack(MoreBits(lead, e[1]), e[2]); }
    }
  }

  lemma LongCharIsEncoded(e: Bytes)
    requires CharLen(e) == |e| == 4
    ensures IsScalar(CodePoint(e)) && EncodeUtf8(CodePoint(e)) == e
  {
    hide MoreBits;
    var a := MoreBits(e[0] - 0xf0, e[1]);
    var b := MoreBits(a, e[2]);
    BitsBack(e[0] - 0xf0, e[1]);
    BitsBack(a, e[2]);
    BitsBack(b, e[3]);
  }

  lemma BitsBack(hi: nat, b: byte)
    requires Tail(b)
    ensures MoreBits(hi, b) == hi * 64 + (b - 0x80 as int)
    ensures MoreBits(hi, b) / 64 == hi && MoreBits(hi, b) % 64 == b - 0x80
    ensures MoreBits(hi, b) / 0x1000 == hi / 64
    ensures MoreBits(hi, b) / 0x4_0000 == hi / 0x1000
  {
  }

  // ---------- escapes ----------

  function HexDigit(b: byte): Option<nat> {
    if 0x30 <= b <= 0x39 then Some(b - 0x30)
    else if 0x61 <= b <= 0x66 then Some(10 + (b - 0x61))
    else if 0x41 <= b <= 0x46 then Some(10 + (b - 0x41))
    else None
  }

  predicate IsHex4(h: Bytes) { |h| == 4 && forall b :: b in h ==> HexDigit(b).Some? }

  function HexVal(h: Bytes): (v: nat)
    requires IsHex4(h)
    ensures v < 0x1_0000
  {
    HexAt(h[0]) * 0x1000 + HexAt(h[1]) * 0x100 + HexAt(h[2]) * 0x10 + HexAt(h[3])
  }

  function HexAt(b: byte): (v: nat)
    requires HexDigit(b).Some?
    ensures v < 16
  {
    HexDigit(b).value
  }

  function ParseHex4(s: Bytes): Option<(nat, Bytes)> {
    if |s| >= 4 && IsHex4(s[..4]) then Some((HexVal(s[..4]), s[4..])) else None
  }

  predicate IsHigh(a: nat) { 0xd800 <= a <= 0xdbff }
  predicate IsLow(a: nat) { 0xdc00 <= a <= 0xdfff }

  function PairValue(hi: nat, lo: nat): (c: nat)
    requires IsHigh(hi) && IsLow(lo)
    ensures IsScalar(c)
  {
    0x1_0000 + (hi - 0xd800) * 0x400 + (lo - 0xdc00)
  }

  /** Surrogate pairs and the code points U+10000 to U+10FFFF correspond one to one. */
  lemma PairsAreBijective(c: nat)
    requires 0x1_0000 <= c < 0x11_0000
    ensures
      var hi, lo := 0xd800 + (c - 0x1_0000) / 0x400, 0xdc00 + (c - 0x1_0000) % 0x400;
      && IsHigh(hi) && IsLow(lo) && PairValue(hi, lo) == c
      && forall h: nat, l: nat :: IsHigh(h) && IsLow(l) && PairValue(h, l) == c ==> h == hi && l == lo
  {
    var d: nat := c - 0x1_0000;
    forall h: nat, l: nat | IsHigh(h) && IsLow(l) && PairValue(h, l) == c
      ensures h == 0xd800 + d / 0x400 && l == 0xdc00 + d % 0x400
    {
      assert d == (h - 0xd800) * 0x400 + (l - 0xdc00);
    }
  }

  /** After `\u`: one code point from four hex digits, or from a surrogate pair. */
  function ParseUEscape(s: Bytes): Option<(nat, Bytes)> {
    var a := ParseHex4(s);
    if a.None? then None
    else if !IsHigh(a.value.0) then (if IsScalar(a.value.0) then a else None)
    else
      var t := a.value.1;
      if |t| < 2 || t[0] != BACKSLASH || t[1] != LOWER_U then None
      else
        var b := ParseHex4(t[2..]);
        if b.None? || !IsLow(b.value.0) then None
        else Some((PairValue(a.value.0, b.value.0), b.value.1))
  }

  function EscapeByte(c: byte): Option<byte> {
    if c == QUOTE || c == BACKSLASH || c == SLASH then Some(c)
    else if c == 0x62 then Some(0x08)
    else if c == 0x66 then Some(0x0c)
    else if c == 0x6e then Some(0x0a)
    else if c == 0x72 then Some(0x0d)
    else if c == 0x74 then Some(0x09)
    else None
  }

  /** One element of a string body: what it means and what is left; None at a malformed element. */
  function ParseElement(s: Bytes): (r: Option<(Bytes, Bytes)>)
    requires s != [] && s[0] != QUOTE
    ensures r.Some? ==> |r.value.1| < |s|
  {
    if s[0] == BACKSLASH then
      if |s| < 2 then None
      else if s[1] == LOWER_U then
        var u := ParseUEscape(s[2..]);
        if u.None? || !IsScalar(u.value.0) then None else Some((EncodeUtf8(u.value.0), u.value.1))
      else if EscapeByte(s[1]).Some? then Some(([EscapeByte(s[1]).value], s[2..]))
      else None
    else if s[0] < 0x20 then None
    else Some(([s[0]], s[1..]))
  }

  function Before(out: Bytes, r: Option<(Bytes, Bytes)>): Option<(Bytes, Bytes)> {
    if r.None? then None else Some((out + r.value.0, r.value.1))
  }

  /** The body of a string up to its closing quote, not yet checked to be UTF-8. */
  function ParseBody(s: Bytes): (r: Option<(Bytes, Bytes)>)
    ensures r.Some? ==> |r.value.1| < |s|
    decreases |s|
  {
    if s == [] then None
    else if s[0] == QUOTE then Some(([], s[1..]))
    else
      var e := ParseElement(s);
      if e.None? then None else Before(e.value.0, ParseBody(e.value.1))
  }

  function ParseString(s: Bytes): (r: Option<(Bytes, Bytes)>)
    ensures r.Some? ==> |r.value.1| < |s|
  {
    if s == [] || s[0] != QUOTE then None
    else
      var r := ParseBody(s[1..]);
      if r.None? || !IsUtf8(r.value.0) then None else r
  }

  // ---------- the grammar of strings ----------

  datatype Part = Raw(b: byte) | Esc(c: byte) | Uni(h: Bytes) | Pair(hi: Bytes, lo: Bytes)

  predicate GoodPart(p: Part) {
    match p
    case Raw(b) => b >= 0x20 && b != QUOTE && b != BACKSLASH
    case Esc(c) => EscapeByte(c).Some?
    case Uni(h) => IsHex4(h) && IsScalar(HexVal(h))
    case Pair(h, l) => IsHex4(h) && IsHex4(l) && IsHigh(HexVal(h)) && IsLow(HexVal(l))
  }

  function PrintPart(p: Part): Bytes {
    match p
    case Raw(b) => [b]
    case Esc(c) => [BACKSLASH, c]
    case Uni(h) => [BACKSLASH, LOWER_U] + h
    case Pair(h, l) => [BACKSLASH, LOWER_U] + h + [BACKSLASH, LOWER_U] + l
  }

  function PartMeaning(p: Part): Bytes
    requires GoodPart(p)
  {
    match p
    case Raw(b) => [b]
    case Esc(c) => [EscapeByte(c).value]
    case Uni(h) => EncodeUtf8(HexVal(h))
    case Pair(h, l) => EncodeUtf8(PairValue(HexVal(h), HexVal(l)))
  }

  predicate GoodParts(ps: seq<Part>) { forall p :: p in ps ==> GoodPart(p) }

  function PrintParts(ps: seq<Part>): Bytes {
    if ps == [] then [] else PrintPart(ps[0]) + PrintParts(ps[1..])
  }

  function Meaning(ps: seq<Part>): Bytes
    requires GoodParts(ps)
  {
    if ps == [] then [] else PartMeaning(ps[0]) + Meaning(ps[1..])
  }

  /** A well-formed string: its text is UTF-8. */
  predicate GoodString(ps: seq<Part>) { GoodParts(ps) && IsUtf8(Meaning(ps)) }

  function PrintString(ps: seq<Part>): Bytes { [QUOTE] + PrintParts(ps) + [QUOTE] }

  // ---------- strings are read as the grammar says ----------

  lemma HexPrefix(h: Bytes, rest: Bytes)
    requires IsHex4(h)
    ensures ParseHex4(h + rest) == Some((HexVal(h), rest))
  {
    assert (h + rest)[..4] == h && (h + rest)[4..] == rest;
  }

  lemma ElementOfPart(p: Part, rest: Bytes)
    requires GoodPart(p)
    ensures PrintPart(p) != [] && PrintPart(p)[0] != QUOTE
    ensures ParseElement(PrintPart(p) + rest) == Some((PartMeaning(p), rest))
  {
    hide EncodeUtf8, HexVal, HexDigit;
    var s := PrintPart(p) + rest;
    match p
    case Raw(b) =>
      assert s[1..] == rest;
    case Esc(c) =>
      assert s[2..] == rest;
      assert c != LOWER_U;
    case Uni(h) =>
      assert s[2..] == h + rest;
      HexPrefix(h, rest);
    case Pair(h, l) =>
      var t := [BACKSLASH, LOWER_U] + (l + rest);
      assert s[2..] == h + t;
      HexPrefix(h, t);
      assert t[2..] == l + rest;
      HexPrefix(l, rest);
  }

  lemma {:induction false} BodyOfParts(ps: seq<Part>, rest: Bytes)
    requires GoodParts(ps)
    ensures ParseBody(PrintParts(ps) + [QUOTE] + rest) == Some((Meaning(ps), rest))
    decreases |ps|
  {
    hide PartMeaning, PrintPart, ParseElement, GoodPart;
    var s := PrintParts(ps) + [QUOTE] + rest;
    if ps == [] {
      assert s == [QUOTE] + rest;
    } else {
      var s1 := PrintParts(ps[1..]) + [QUOTE] + rest;
      BodyOfParts(ps[1..], rest);
      ElementOfPart(ps[0], s1);
      assert s == PrintPart(ps[0]) + s1;
    }
  }

  /** Reading a printed string gives its text and stops just past the closing quote, whatever follows. */
  lemma StringOfParts(ps: seq<Part>, rest: Bytes)
    requires GoodString(ps)
    ensures ParseString(PrintString(ps) + rest) == Some((Meaning(ps), rest))
  {
    hide ParseBody, PrintParts, Meaning;
    var s := PrintString(ps) + rest;
    assert s[1..] == PrintParts(ps) + [QUOTE] + rest;
    BodyOfParts(ps, rest);
  }

  lemma UEscapeIsPart(s: Bytes) returns (p: Part)
    requires ParseUEscape(s).Some?
    ensures IsScalar(ParseUEscape(s).value.0)
    ensures GoodPart(p) && (p.Uni? || p.Pair?) && PartMeaning(p) == EncodeUtf8(ParseUEscape(s).value.0)
    ensures PrintPart(p) + ParseUEscape(s).value.1 == [BACKSLASH, LOWER_U] + s
  {
    hide EncodeUtf8, HexVal, HexDigit;
    var h := s[..4];
    var t := s[4..];
    assert s == h + t;
    if !IsHigh(HexVal(h)) {
      p := Uni(h);
    } else {
      var l := t[2..][..4];
      assert t == [BACKSLASH, LOWER_U] + l + t[2..][4..];
      p := Pair(h, l);
    }
  }

  lemma ElementIsPart(s: Bytes) returns (p: Part)
    requires s != [] && s[0] != QUOTE && ParseElement(s).Some?
    ensures GoodPart(p) && PartMeaning(p) == ParseElement(s).value.0
    ensures s == PrintPart(p) + ParseElement(s).value.1
  {
    hide ParseUEscape, EncodeUtf8;
    if s[0] == BACKSLASH {
      if s[1] == LOWER_U {
        p := UEscapeIsPart(s[2..]);
        assert s == [BACKSLASH, LOWER_U] + s[2..];
      } else {
        p := Esc(s[1]);
        assert s == [BACKSLASH, s[1]] + s[2..];
      }
    } else {
      p := Raw(s[0]);
    }
  }

  lemma BodyIsParts(s: Bytes) returns (ps: seq<Part>)
    requires ParseBody(s).Some?
    ensures GoodParts(ps) && Meaning(ps) == ParseBody(s).value.0
    ensures s == PrintParts(ps) + [QUOTE] + ParseBody(s).value.1
    decreases |s|
  {
    hide ParseElement, GoodPart, PrintPart, PartMeaning;
    if s[0] == QUOTE {
      ps := [];
      assert s == [QUOTE] + s[1..];
    } else {
      var e := ParseElement(s).value;
      var p := ElementIsPart(s);
      var more := BodyIsParts(e.1);
      ps := [p] + more;
      assert ps[1..] == more;
      assert s == PrintPart(p) + PrintParts(more) + [QUOTE] + ParseBody(e.1).value.1;
    }
  }

  /** Whatever is read as a string is the print of a well-formed string with that text. */
  lemma StringIsParts(s: Bytes) returns (ps: seq<Part>)
    requires ParseString(s).Some?
    ensures GoodString(ps) && Meaning(ps) == ParseString(s).value.0
    ensures s == PrintString(ps) + ParseString(s).value.1
  {
    hide ParseBody, PrintParts, Meaning;
    ps := BodyIsParts(s[1..]);
    assert s == [QUOTE] + s[1..];
  }

  // ---------- what each spelling of a character is read as ----------

  lemma OneElement(e: Bytes, meaning: Bytes, rest: Bytes)
    requires e != [] && e[0] != QUOTE && ParseElement(e + [QUOTE] + rest) == Some((meaning, [QUOTE] + rest))
    ensures ParseString([0x22] + e + [0x22] + rest) == if IsUtf8(meaning) then Some((meaning, rest)) else None
  {
    hide ParseElement, IsUtf8;
    var s := e + [QUOTE] + rest;
    assert ([0x22] + e + [0x22] + rest)[1..] == s;
    assert ([QUOTE] + rest)[1..] == rest;
    assert ParseBody([QUOTE] + rest) == Some(([], rest));
    assert meaning + [] == meaning;
  }

  /** A backslash and a letter other than `u` is read by the table of section 7 of RFC 8259, or refused. */
  lemma SimpleEscapes(c: byte, b: byte, rest: Bytes)
    requires c != 0x75
    ensures ParseString([0x22, 0x5c, c, 0x22] + rest) == Some(([b], rest))
        <==> (c, b) in {(0x22, 0x22), (0x5c, 0x5c), (0x2f, 0x2f), (0x62, 0x08), (0x66, 0x0c), (0x6e, 0x0a), (0x72, 0x0d), (0x74, 0x09)}
    ensures ParseString([0x22, 0x5c, c, 0x22] + rest).None?
        <==> c !in {0x22, 0x5c, 0x2f, 0x62, 0x66, 0x6e, 0x72, 0x74}
  {
    hide ParseBody;
    var e := [0x5c, c];
    var s := e + [QUOTE] + rest;
    assert s[2..] == [QUOTE] + rest;
    assert [0x22, 0x5c, c, 0x22] + rest == [0x22] + e + [0x22] + rest;
    if EscapeByte(c).Some? {
      var m := [EscapeByte(c).value];
      OneElement(e, m, rest);
      assert m[1..] == [];
    } else {
      Malformed(s);
      assert ([0x22, 0x5c, c, 0x22] + rest)[1..] == s;
    }
  }

  lemma Malformed(s: Bytes)
    requires s != [] && s[0] != QUOTE && ParseElement(s).None?
    ensures ParseBody(s).None?
  {
  }

  /** A character written as itself: printable ASCII other than quote and backslash. */
  lemma RawCharacters(b: byte, rest: Bytes)
    requires b != 0x22 && b != 0x5c
    ensures ParseString([0x22, b, 0x22] + rest) == if 0x20 <= b < 0x80 then Some(([b], rest)) else None
  {
    hide ParseBody;
    var s := [b] + [QUOTE] + rest;
    assert s[1..] == [QUOTE] + rest;
    assert [0x22, b, 0x22] + rest == [0x22] + [b] + [0x22] + rest;
    if b >= 0x20 {
      OneElement([b], [b], rest);
      assert [b][1..] == [];
    } else {
      Malformed(s);
      assert ([0x22, b, 0x22] + rest)[1..] == s;
    }
  }

  /** The digit of value v, in lower or upper case. */
  function HexText(v: nat, upper: bool): byte
    requires v < 16
  {
    if upper then Ascii("0123456789ABCDEF")[v] else Ascii("0123456789abcdef")[v]
  }

  lemma HexTable(v: nat)
    requires v < 16
    ensures HexText(v, false) == if v < 10 then 0x30 + v else 0x61 + (v - 10)
    ensures HexText(v, true) == if v < 10 then 0x30 + v else 0x41 + (v - 10)
  {
    if v < 10 {
      assert "0123456789abcdef"[v] == '0' + v as char && "0123456789ABCDEF"[v] == '0' + v as char;
    } else {
      assert "0123456789abcdef"[v] == 'a' + (v - 10) as char;
      assert "0123456789ABCDEF"[v] == 'A' + (v - 10) as char;
    }
  }

  /** A byte has value v exactly when it is one of the two digits of value v. */
  lemma HexDigitIff(b: byte, v: nat)
    ensures HexDigit(b) == Some(v) <==> v < 16 && (b == HexText(v, false) || b == HexText(v, true))
  {
    hide HexText;
    if v < 16 { HexTable(v); }
  }

  function HexText4(c: nat, upper: bool): Bytes
    requires c < 0x1_0000
  {
    [HexText(c / 0x1000, upper), HexText(c / 0x100 % 16, upper), HexText(c / 0x10 % 16, upper), HexText(c % 16, upper)]
  }

  lemma Hex4Read(c: nat, upper: bool)
    requires c < 0x1_0000
    ensures IsHex4(HexText4(c, upper)) && HexVal(HexText4(c, upper)) == c
  {
    hide HexText, HexDigit;
    HexDigitIff(HexText(c / 0x1000, upper), c / 0x1000);
    HexDigitIff(HexText(c / 0x100 % 16, upper), c / 0x100 % 16);
    HexDigitIff(HexText(c / 0x10 % 16, upper), c / 0x10 % 16);
    HexDigitIff(HexText(c % 16, upper), c % 16);
    FourDigits(c);
  }

  lemma FourDigits(c: nat)
    requires c < 0x1_0000
    ensures c == c / 0x1000 * 0x1000 + c / 0x100 % 16 * 0x100 + c / 0x10 % 16 * 0x10 + c % 16
  {
    var a := c / 0x10;
    var b := c / 0x100;
    assert c == a * 16 + c % 16;
    assert b == a / 16 && a == b * 16 + a % 16 by { NestedQuotient(c, 0x10); }
    assert c / 0x1000 == b / 16 && b == c / 0x1000 * 16 + b % 16 by { NestedQuotient(c, 0x100); }
  }

  lemma NestedQuotient(c: nat, unit: nat)
    requires unit == 0x10 || unit == 0x100
    ensures c / (unit * 16) == c / unit / 16
  {
  }

  /** Every scalar below U+10000 written as four digits is read as its UTF-8 form; a lone surrogate is refused. */
  lemma UnicodeEscapes(c: nat, upper: bool, rest: Bytes)
    requires c < 0x1_0000
    ensures ParseString([0x22, 0x5c, 0x75] + HexText4(c, upper) + [0x22] + rest)
         == if IsScalar(c) then Some((EncodeUtf8(c), rest)) else None
  {
    hide HexText4, EncodeUtf8, ParseBody, IsUtf8, HexVal, IsHex4;
    var h := HexText4(c, upper);
    assert |h| == 4 by { Hex4Length(c, upper); }
    Hex4Read(c, upper);
    var e := [0x5c, 0x75] + h;
    var s := e + [QUOTE] + rest;
    assert s[2..] == h + ([QUOTE] + rest);
    HexPrefix(h, [QUOTE] + rest);
    assert [0x22, 0x5c, 0x75] + h + [0x22] + rest == [0x22] + e + [0x22] + rest;
    if IsScalar(c) {
      EncodedIsUtf8(c);
      OneElement(e, EncodeUtf8(c), rest);
    } else {
      Malformed(s);
      assert ([0x22] + e + [0x22] + rest)[1..] == s;
    }
  }

  lemma Hex4Length(c: nat, upper: bool)
    requires c < 0x1_0000
    ensures |HexText4(c, upper)| == 4
  {
  }

  /** Every code point from U+10000 written as its surrogate pair is read as its UTF-8 form. */
  lemma PairEscapes(c: nat, upper: bool, rest: Bytes)
    requires 0x1_0000 <= c < 0x11_0000
    ensures
      var hi, lo := 0xd800 + (c - 0x1_0000) / 0x400, 0xdc00 + (c - 0x1_0000) % 0x400;
      ParseString([0x22, 0x5c, 0x75] + HexText4(hi, upper) + [0x5c, 0x75] + HexText4(lo, upper) + [0x22] + rest)
      == Some((EncodeUtf8(c), rest))
  {
    hide HexText4, EncodeUtf8, ParseBody, IsUtf8, HexVal, IsHex4;
    var hi, lo := 0xd800 + (c - 0x1_0000) / 0x400, 0xdc00 + (c - 0x1_0000) % 0x400;
    var h, l := HexText4(hi, upper), HexText4(lo, upper);
    Hex4Length(hi, upper);
    Hex4Length(lo, upper);
    Hex4Read(hi, upper);
    Hex4Read(lo, upper);
    PairsAreBijective(c);
    var end := [QUOTE] + rest;
    var e := [0x5c, 0x75] + h + [0x5c, 0x75] + l;
    var s := e + [QUOTE] + rest;
    var t := [0x5c, 0x75] + (l + end);
    assert s[2..] == h + t;
    HexPrefix(h, t);
    assert t[2..] == l + end;
    HexPrefix(l, end);
    assert [0x22, 0x5c, 0x75] + h + [0x5c, 0x75] + l + [0x22] + rest == [0x22] + e + [0x22] + rest;
    EncodedIsUtf8(c);
    OneElement(e, EncodeUtf8(c), rest);
  }

  // ---------- printing text ----------

  function HexChar(d: nat): byte
    requires d < 16
  {
    if d < 10 then 0x30 + d else 0x61 + (d - 10)
  }

  /** How the printer writes one byte of text. */
  function PartOf(b: byte): Part {
    if b == QUOTE || b == BACKSLASH then Esc(b)
    else if b < 0x20 then Uni([ZERO, ZERO, HexChar(b / 16), HexChar(b % 16)])
    else Raw(b)
  }

  function PartsOf(text: Bytes): (ps: seq<Part>)
    ensures |ps| == |text|
  {
    seq(|text|, i requires 0 <= i < |text| => PartOf(text[i]))
  }

  function JsonString(text: Bytes): Bytes { PrintString(PartsOf(text)) }

  lemma PartOfMeans(b: byte)
    ensures GoodPart(PartOf(b)) && PartMeaning(PartOf(b)) == [b]
  {
    if b < 0x20 {
      var h := [ZERO, ZERO, HexChar(b / 16), HexChar(b % 16)];
      assert HexDigit(h[0]) == Some(0) && HexDigit(h[1]) == Some(0);
      assert HexDigit(h[2]) == Some(b / 16) && HexDigit(h[3]) == Some(b % 16);
      assert HexVal(h) == (b / 16) * 16 + b % 16;
    }
  }

  lemma {:induction false} PartsOfMean(text: Bytes)
    ensures GoodParts(PartsOf(text)) && Meaning(PartsOf(text)) == text
    decreases |text|
  {
    hide PartOf, PartMeaning, GoodPart;
    var ps := PartsOf(text);
    forall p | p in ps ensures GoodPart(p) {
      var i :| 0 <= i < |ps| && ps[i] == p;
      PartOfMeans(text[i]);
    }
    if text != [] {
      PartsOfMean(text[1..]);
      PartOfMeans(text[0]);
      assert ps[1..] == PartsOf(text[1..]);
      assert Meaning(ps) == [text[0]] + text[1..];
    }
  }

  /** Parsing undoes printing for every UTF-8 text and any suffix. */
  lemma StringRoundTrip(text: Bytes, rest: Bytes)
    requires IsUtf8(text)
    ensures ParseString(JsonString(text) + rest) == Some((text, rest))
  {
    hide ParseString, PrintString, Meaning, PartsOf;
    PartsOfMean(text);
    StringOfParts(PartsOf(text), rest);
  }

  /** Text that is not UTF-8 is printed but not read back. */
  lemma NonUtf8IsRejected(text: Bytes, rest: Bytes)
    requires !IsUtf8(text)
    ensures ParseString(JsonString(text) + rest).None?
  {
    hide ParseBody, PrintParts, Meaning, PartsOf, IsUtf8;
    PartsOfMean(text);
    var s := JsonString(text) + rest;
    assert s[1..] == PrintParts(PartsOf(text)) + [QUOTE] + rest;
    BodyOfParts(PartsOf(text), rest);
  }

  // ---------- decimal numbers ----------

  predicate IsDigit(b: byte) { 0x30 <= b <= 0x39 }

  predicate AllDigits(d: Bytes) { forall i :: 0 <= i < |d| ==> IsDigit(d[i]) }

  lemma DigitsAre(b: byte)
    ensures IsDigit(b) <==> b in Ascii("0123456789")
  {
    forall v: nat | v < 10 ensures Ascii("0123456789")[v] == 0x30 + v { assert "0123456789"[v] == '0' + v as char; }
    if IsDigit(b) { assert Ascii("0123456789")[b - 0x30] == b; }
  }

  /** Reads digits onto n; None once the value passes 2^32 - 1. */
  function DigitsFrom(n: nat, s: Bytes): (r: Option<(nat, Bytes)>)
    ensures r.Some? ==> |r.value.1| <= |s|
    decreases |s|
  {
    if s == [] || !IsDigit(s[0]) then Some((n, s))
    else
      var n1 := n * 10 + (s[0] - 0x30);
      if n1 >= TWO32 then None else DigitsFrom(n1, s[1..])
  }

  function ParseU32(s: Bytes): (r: Option<(nat, Bytes)>)
    ensures r.Some? ==> |r.value.1| < |s|
  {
    if s == [] || !IsDigit(s[0]) then None else DigitsFrom(0, s)
  }

  function ParseU16(s: Bytes): (r: Option<(nat, Bytes)>)
    ensures r.Some? ==> |r.value.1| < |s|
  {
    var n := ParseU32(s);
    if n.None? || n.value.0 >= 0x1_0000 then None else n
  }

  function Decimal(n: nat): (d: Bytes)
    ensures d != [] && AllDigits(d)
  {
    if n < 10 then [0x30 + n] else Decimal(n / 10) + [0x30 + n % 10]
  }

  /** The number a sequence of digits denotes. */
  ghost function DecimalValue(d: Bytes): nat
    requires AllDigits(d)
  {
    if d == [] then 0
    else
      var digit: nat := d[|d| - 1] - 0x30;
      DecimalValue(d[..|d| - 1]) * 10 + digit
  }

  predicate NoDigitNext(rest: Bytes) { rest == [] || !IsDigit(rest[0]) }

  /** Reading onto n all digits of a decimal print. */
  lemma {:induction false} DigitsOfDecimal(n: nat, rest: Bytes)
    requires n < TWO32
    ensures DigitsFrom(0, Decimal(n) + rest) == DigitsFrom(n, rest)
    decreases n
  {
    if n < 10 {
      assert ([0x30 + n] + rest)[1..] == rest;
    } else {
      var last: byte := 0x30 + n % 10;
      DigitsOfDecimal(n / 10, [last] + rest);
      assert Decimal(n) + rest == Decimal(n / 10) + ([last] + rest);
      assert ([last] + rest)[1..] == rest;
      assert (n / 10) * 10 + n % 10 == n;
    }
  }

  lemma {:induction false} DigitsTooLarge(n: nat, rest: Bytes)
    requires n >= TWO32
    ensures DigitsFrom(0, Decimal(n) + rest).None?
    decreases n
  {
    var last: byte := 0x30 + n % 10;
    assert Decimal(n) + rest == Decimal(n / 10) + ([last] + rest);
    if n / 10 >= TWO32 {
      DigitsTooLarge(n / 10, [last] + rest);
    } else {
      DigitsOfDecimal(n / 10, [last] + rest);
      assert (n / 10) * 10 + n % 10 == n;
    }
  }

  /** Parsing undoes printing exactly up to 2^32 - 1. */
  lemma NumberRoundTrip(n: nat, rest: Bytes)
    requires NoDigitNext(rest)
    ensures n < TWO32 ==> ParseU32(Decimal(n) + rest) == Some((n, rest))
    ensures n >= TWO32 ==> ParseU32(Decimal(n) + rest).None?
  {
    assert (Decimal(n) + rest)[0] == Decimal(n)[0];
    if n < TWO32 { DigitsOfDecimal(n, rest); } else { DigitsTooLarge(n, rest); }
  }

  lemma {:induction false} DecimalLength(n: nat, k: nat, bound: nat)
    requires k > 0 && bound == Pow10(k) && n < bound
    ensures |Decimal(n)| <= k
    decreases k
  {
    if n >= 10 {
      assert n / 10 < Pow10(k - 1);
      DecimalLength(n / 10, k - 1, Pow10(k - 1));
    }
  }

  function Pow10(k: nat): nat { if k == 0 then 1 else 10 * Pow10(k - 1) }

  /** The 20-byte digit buffer holds every u64. */
  lemma U64FitsBuffer(n: nat)
    requires n < TWO32 * TWO32
    ensures |Decimal(n)| <= 20
  {
    assert Pow10(5) == 100000;
    assert Pow10(10) == 100000 * Pow10(5);
    assert Pow10(15) == 100000 * Pow10(10);
    assert Pow10(20) == 100000 * Pow10(15);
    DecimalLength(n, 20, Pow10(20));
  }
}
