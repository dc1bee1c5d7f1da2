/**
 The adapters' value skipper against the grammar of RFC 8259 (sections 2 to 7).
 A tree carries its own whitespace and spelling, so printing it gives exact text.
 The skipper accepts leading zeros in numbers, so the grammar here allows them.
 */
module JsonScan {
  import opened Words
  import opened JsonText

  const LBRACE: byte := 0x7b
  const RBRACE: byte := 0x7d
  const LBRACKET: byte := 0x5b
  const RBRACKET: byte := 0x5d
  const COMMA: byte := 0x2c
  const COLON: byte := 0x3a
  const MINUS: byte := 0x2d
  const PLUS: byte := 0x2b
  const DOT: byte := 0x2e

  const TRUE_TEXT: Bytes := [0x74, 0x72, 0x75, 0x65]
  const FALSE_TEXT: Bytes := [0x66, 0x61, 0x6c, 0x73, 0x65]
  const NULL_TEXT: Bytes := [0x6e, 0x75, 0x6c, 0x6c]

  // ---------- the skipper, on the remaining bytes ----------

  predicate IsWs(b: byte) { b == 0x20 || b == 0x0a || b == 0x0d || b == 0x09 }

  function SkipWs(s: Bytes): (r: Bytes)
    ensures |r| <= |s|
    ensures r != [] ==> !IsWs(r[0])
    decreases |s|
  {
    if s != [] && IsWs(s[0]) then SkipWs(s[1..]) else s
  }

  function Starts(s: Bytes, b: byte): bool { s != [] && s[0] == b }

  function Expect(s: Bytes, b: byte): (r: Option<Bytes>)
    ensures r.Some? ==> |r.value| < |s|
  {
    if Starts(s, b) then Some(s[1..]) else None
  }

  function ExpectText(s: Bytes, text: Bytes): Option<Bytes> {
    if text <= s then Some(s[|text|..]) else None
  }

  function SkipDigits(s: Bytes): (r: Bytes)
    ensures |r| <= |s|
    decreases |s|
  {
    if s != [] && IsDigit(s[0]) then SkipDigits(s[1..]) else s
  }

  /** At least one digit. */
  function SomeDigits(s: Bytes): (r: Option<Bytes>)
    ensures r.Some? ==> |r.value| < |s|
  {
    if s != [] && IsDigit(s[0]) then Some(SkipDigits(s)) else None
  }

  function SkipFraction(s: Bytes): (r: Option<Bytes>)
    ensures r.Some? ==> |r.value| <= |s|
  {
    if Starts(s, DOT) then SomeDigits(s[1..]) else Some(s)
  }

  function DropSign(s: Bytes): Bytes {
    if Starts(s, PLUS) || Starts(s, MINUS) then s[1..] else s
  }

  function SkipExponent(s: Bytes): (r: Option<Bytes>)
    ensures r.Some? ==> |r.value| <= |s|
  {
    if Starts(s, 0x65) || Starts(s, 0x45) then SomeDigits(DropSign(s[1..])) else Some(s)
  }

  function SkipNumber(s: Bytes): (r: Option<Bytes>)
    ensures r.Some? ==> |r.value| < |s|
  {
    var whole := SomeDigits(if Starts(s, MINUS) then s[1..] else s);
    if whole.None? then None
    else
      var fraction := SkipFraction(whole.value);
      if fraction.None? then None else SkipExponent(fraction.value)
  }

  function SkipValue(s: Bytes): (r: Option<Bytes>)
    ensures r.Some? ==> |r.value| < |s|
    decreases |s|, 1
  {
    var t := SkipWs(s);
    if t == [] then None
    else if t[0] == LBRACE then
      (var u := SkipWs(t[1..]); if Starts(u, RBRACE) then Some(u[1..]) else SkipMembers(u))
    else if t[0] == LBRACKET then
      (var u := SkipWs(t[1..]); if Starts(u, RBRACKET) then Some(u[1..]) else SkipItems(u))
    else if t[0] == QUOTE then
      (var r := ParseString(t); if r.None? then None else Some(r.value.1))
    else if t[0] == MINUS || IsDigit(t[0]) then SkipNumber(t)
    else if t[0] == TRUE_TEXT[0] then ExpectText(t, TRUE_TEXT)
    else if t[0] == FALSE_TEXT[0] then ExpectText(t, FALSE_TEXT)
    else if t[0] == NULL_TEXT[0] then ExpectText(t, NULL_TEXT)
    else None
  }

  /** The key of a member up to the start of its value. */
  function ParseKey(s: Bytes): (r: Option<(Bytes, Bytes)>)
    ensures r.Some? ==> |r.value.1| < |s|
  {
    var k := ParseString(SkipWs(s));
    if k.None? then None
    else
      var c := Expect(SkipWs(k.value.1), COLON);
      if c.None? then None else Some((k.value.0, SkipWs(c.value)))
  }

  function SkipMembers(s: Bytes): (r: Option<Bytes>)
    ensures r.Some? ==> |r.value| < |s|
    decreases |s|, 0
  {
    var k := ParseKey(s);
    if k.None? then None
    else
      var v := SkipValue(k.value.1);
      if v.None? then None
      else
        var t := SkipWs(v.value);
        if Starts(t, COMMA) then SkipMembers(t[1..])
        else if Starts(t, RBRACE) then Some(t[1..])
        else None
  }

  function SkipItems(s: Bytes): (r: Option<Bytes>)
    ensures r.Some? ==> |r.value| < |s|
    decreases |s|, 2
  {
    var v := SkipValue(SkipWs(s));
    if v.None? then None
    else
      var t := SkipWs(v.value);
      if Starts(t, COMMA) then SkipItems(t[1..])
      else if Starts(t, RBRACKET) then Some(t[1..])
      else None
  }

  // ---------- the grammar ----------

  datatype Exponent = Exponent(marker: byte, sign: Bytes, digits: Bytes)
  datatype Number = Number(negative: bool, whole: Bytes, fraction: Option<Bytes>, exponent: Option<Exponent>)

  datatype Json =
    | Null | True | False
    | Num(n: Number)
    | Str(parts: seq<Part>)
    | Arr(pad: Bytes, items: Items)
    | Obj(pad: Bytes, members: Members)

  /** `before value after`, comma separated. */
  datatype Items = NoItems | Item(before: Bytes, v: Json, after: Bytes, rest: Items)

  /** `before key afterKey : beforeValue value after`, comma separated. */
  datatype Members =
    | NoMembers
    | Member(before: Bytes, key: seq<Part>, afterKey: Bytes, beforeValue: Bytes, v: Json, after: Bytes, rest: Members)

  predicate AllWs(w: Bytes) { forall b :: b in w ==> IsWs(b) }

  predicate Digits(d: Bytes) { d != [] && AllDigits(d) }

  predicate GoodExponent(e: Exponent) {
    (e.marker == 0x65 || e.marker == 0x45) && IsSign(e.sign) && Digits(e.digits)
  }

  predicate GoodNumber(n: Number) {
    && Digits(n.whole) && (n.fraction.Some? ==> Digits(n.fraction.value))
    && (n.exponent.Some? ==> GoodExponent(n.exponent.value))
  }

  predicate Good(t: Json) {
    match t
    case Num(n) => GoodNumber(n)
    case Str(ps) => GoodString(ps)
    case Arr(pad, items) => AllWs(pad) && GoodItems(items)
    case Obj(pad, ms) => AllWs(pad) && GoodMembers(ms)
    case _ => true
  }

  predicate GoodItems(items: Items) {
    items.Item? ==> AllWs(items.before) && Good(items.v) && AllWs(items.after) && GoodItems(items.rest)
  }

  predicate GoodMembers(ms: Members) {
    ms.Member? ==>
      && AllWs(ms.before) && GoodString(ms.key) && AllWs(ms.afterKey) && AllWs(ms.beforeValue)
      && Good(ms.v) && AllWs(ms.after) && GoodMembers(ms.rest)
  }

  function PrintFraction(f: Option<Bytes>): Bytes { if f.None? then [] else [DOT] + f.value }

  function PrintExponent(e: Option<Exponent>): Bytes {
    if e.None? then [] else [e.value.marker] + e.value.sign + e.value.digits
  }

  function PrintNumber(n: Number): Bytes {
    (if n.negative then [MINUS] else []) + n.whole + PrintFraction(n.fraction) + PrintExponent(n.exponent)
  }

  function Print(t: Json): Bytes {
    match t
    case Null => NULL_TEXT
    case True => TRUE_TEXT
    case False => FALSE_TEXT
    case Num(n) => PrintNumber(n)
    case Str(ps) => PrintString(ps)
    case Arr(pad, items) => [LBRACKET] + (if items.NoItems? then pad + [RBRACKET] else PrintItems(items))
    case Obj(pad, ms) => [LBRACE] + (if ms.NoMembers? then pad + [RBRACE] else PrintMembers(ms))
  }

  /** The items of a non-empty array with its closing bracket. */
  function PrintItems(items: Items): Bytes {
    if items.NoItems? then []
    else
      items.before + Print(items.v) + items.after
      + (if items.rest.NoItems? then [RBRACKET] else [COMMA] + PrintItems(items.rest))
  }

  function PrintKey(ms: Members): Bytes
    requires ms.Member?
  {
    ms.before + PrintString(ms.key) + ms.afterKey + [COLON] + ms.beforeValue
  }

  /** The members of a non-empty object with its closing brace. */
  function PrintMembers(ms: Members): Bytes {
    if ms.NoMembers? then []
    else
      PrintKey(ms) + (Print(ms.v) + ms.after
      + (if ms.rest.NoMembers? then [RBRACE] else [COMMA] + PrintMembers(ms.rest)))
  }

  /** What may follow a value: the end, whitespace, a comma or a closing bracket. */
  predicate Delimits(rest: Bytes) {
    rest == [] || IsWs(rest[0]) || rest[0] == COMMA || rest[0] == RBRACE || rest[0] == RBRACKET
  }

  /** The grammar in its own characters. */
  lemma PrintedCharacters(pad: Bytes, m: seq<Part>, v: Json, w: Json)
    ensures Print(Null) == Ascii("null") && Print(True) == Ascii("true") && Print(False) == Ascii("false")
    ensures Print(Arr(pad, NoItems)) == Ascii("[") + pad + Ascii("]")
    ensures Print(Obj(pad, NoMembers)) == Ascii("{") + pad + Ascii("}")
    ensures Print(Arr([], Item([], v, [], Item([], w, [], NoItems))))
         == Ascii("[") + Print(v) + Ascii(",") + Print(w) + Ascii("]")
    ensures Print(Obj([], Member([], m, [], [], v, [], Member([], m, [], [], w, [], NoMembers))))
         == Ascii("{") + PrintString(m) + Ascii(":") + Print(v) + Ascii(",") + PrintString(m) + Ascii(":") + Print(w) + Ascii("}")
    ensures PrintString(m) == [0x22] + PrintParts(m) + [0x22]
    ensures AllWs(pad) <==> forall b :: b in pad ==> b in {0x20, 0x0a, 0x0d, 0x09}
  {
    hide Print, PrintParts;
    LiteralPrints();
    EmptyPrints(pad);
    TwoItems(v, w);
    TwoMembers(m, v, w);
  }

  lemma LiteralPrints()
    ensures Print(Null) == Ascii("null") && Print(True) == Ascii("true") && Print(False) == Ascii("false")
  {
  }

  lemma EmptyPrints(pad: Bytes)
    ensures Print(Arr(pad, NoItems)) == Ascii("[") + pad + Ascii("]")
    ensures Print(Obj(pad, NoMembers)) == Ascii("{") + pad + Ascii("}")
  {
    assert Ascii("[") == [LBRACKET] && Ascii("]") == [RBRACKET] && Ascii("{") == [LBRACE] && Ascii("}") == [RBRACE];
  }

  /** A number in its own characters. */
  lemma NumberCharacters(n: Number)
    requires GoodNumber(n)
    ensures PrintNumber(n) ==
      (if n.negative then Ascii("-") else []) + n.whole
      + (if n.fraction.Some? then Ascii(".") + n.fraction.value else [])
      + (if n.exponent.Some? then [n.exponent.value.marker] + n.exponent.value.sign + n.exponent.value.digits else [])
    ensures n.exponent.Some? ==> n.exponent.value.marker in Ascii("eE") && n.exponent.value.sign in {[], Ascii("+"), Ascii("-")}
  {
    assert Ascii("-") == [MINUS] && Ascii(".") == [DOT] && Ascii("+") == [PLUS];
    assert Ascii("eE") == [0x65, 0x45];
  }

  lemma TwoItems(v: Json, w: Json)
    ensures Print(Arr([], Item([], v, [], Item([], w, [], NoItems))))
         == Ascii("[") + Print(v) + Ascii(",") + Print(w) + Ascii("]")
  {
    hide Print;
    var last := Item([], w, [], NoItems);
    var items := Item([], v, [], last);
    assert PrintItems(last) == Print(w) + [RBRACKET] by { PrintItemsIs(last); }
    assert PrintItems(items) == Print(v) + ([COMMA] + PrintItems(last)) by { PrintItemsIs(items); }
    assert Print(Arr([], items)) == [LBRACKET] + PrintItems(items) by { ListPrint(items); }
    assert Ascii("[") == [LBRACKET] && Ascii(",") == [COMMA] && Ascii("]") == [RBRACKET];
  }

  lemma ListPrint(items: Items)
    requires items.Item?
    ensures Print(Arr([], items)) == [LBRACKET] + PrintItems(items)
  {
  }

  lemma TwoMembers(m: seq<Part>, v: Json, w: Json)
    ensures Print(Obj([], Member([], m, [], [], v, [], Member([], m, [], [], w, [], NoMembers))))
         == Ascii("{") + PrintString(m) + Ascii(":") + Print(v) + Ascii(",") + PrintString(m) + Ascii(":") + Print(w) + Ascii("}")
  {
    hide Print, PrintString, PrintMembers, PrintKey;
    var last := Member([], m, [], [], w, [], NoMembers);
    var ms := Member([], m, [], [], v, [], last);
    var key := PrintString(m) + [COLON];
    BareMember(last);
    BareMember(ms);
    assert PrintMembers(ms) == key + Print(v) + ([COMMA] + (key + Print(w) + [RBRACE]));
    assert Print(Obj([], ms)) == [LBRACE] + PrintMembers(ms) by { ObjectPrint(ms); }
    assert Ascii("{") == [LBRACE] && Ascii(",") == [COMMA] && Ascii("}") == [RBRACE] && Ascii(":") == [COLON];
  }

  lemma BareMember(ms: Members)
    requires ms.Member? && ms.before == ms.afterKey == ms.beforeValue == ms.after == []
    ensures PrintMembers(ms) == PrintString(ms.key) + [COLON] + Print(ms.v) + MemberTail(ms)
  {
    hide Print, PrintString, PrintMembers, MemberTail;
    PrintMembersIs(ms);
    assert [] + PrintString(ms.key) + [] + [COLON] + [] == PrintString(ms.key) + [COLON];
    assert Print(ms.v) + [] == Print(ms.v);
  }

  lemma ObjectPrint(ms: Members)
    requires ms.Member?
    ensures Print(Obj([], ms)) == [LBRACE] + PrintMembers(ms)
  {
  }

  // ---------- completeness ----------

  lemma {:induction false} WsSkipped(w: Bytes, s: Bytes)
    requires AllWs(w) && (s == [] || !IsWs(s[0]))
    ensures SkipWs(w + s) == s
    decreases |w|
  {
    if w == [] {
      assert w + s == s;
    } else {
      assert (w + s)[1..] == w[1..] + s;
      WsSkipped(w[1..], s);
    }
  }

  lemma {:induction false} DigitsSkipped(d: Bytes, s: Bytes)
    requires AllDigits(d) && NoDigitNext(s)
    ensures SkipDigits(d + s) == s
    decreases |d|
  {
    if d == [] {
      assert d + s == s;
    } else {
      assert (d + s)[1..] == d[1..] + s;
      DigitsSkipped(d[1..], s);
    }
  }

  lemma ExponentSkipped(e: Option<Exponent>, s: Bytes)
    requires (e.Some? ==> GoodExponent(e.value)) && Delimits(s)
    ensures SkipExponent(PrintExponent(e) + s) == Some(s)
    ensures NoDigitNext(PrintExponent(e) + s) && !Starts(PrintExponent(e) + s, DOT)
  {
    hide SkipDigits, DropSign;
    var t := PrintExponent(e) + s;
    if e.None? {
      assert t == s;
    } else {
      var x := e.value;
      var z := x.digits + s;
      assert t[1..] == x.sign + z;
      assert z[0] == x.digits[0];
      SignDropped(x.sign, z);
      DigitsSkipped(x.digits, s);
    }
  }

  predicate IsSign(sign: Bytes) { sign == [] || sign == [PLUS] || sign == [MINUS] }

  lemma SignDropped(sign: Bytes, z: Bytes)
    requires IsSign(sign) && z != [] && IsDigit(z[0])
    ensures DropSign(sign + z) == z
  {
    if sign == [] { assert sign + z == z; } else { assert (sign + z)[1..] == z; }
  }

  lemma FractionSkipped(f: Option<Bytes>, t: Bytes)
    requires (f.Some? ==> Digits(f.value)) && NoDigitNext(t) && !Starts(t, DOT)
    ensures SkipFraction(PrintFraction(f) + t) == Some(t) && NoDigitNext(PrintFraction(f) + t)
  {
    hide SkipDigits;
    if f.None? {
      assert PrintFraction(f) + t == t;
    } else {
      assert (PrintFraction(f) + t)[1..] == f.value + t;
      DigitsSkipped(f.value, t);
    }
  }

  lemma NumberSkipped(n: Number, s: Bytes)
    requires GoodNumber(n) && Delimits(s)
    ensures SkipNumber(PrintNumber(n) + s) == Some(s)
    ensures PrintNumber(n) != [] && (PrintNumber(n)[0] == MINUS || IsDigit(PrintNumber(n)[0]))
  {
    hide SkipDigits, SkipFraction, SkipExponent, PrintFraction, PrintExponent, GoodExponent;
    var e := PrintExponent(n.exponent) + s;
    var f := PrintFraction(n.fraction) + e;
    ExponentSkipped(n.exponent, s);
    FractionSkipped(n.fraction, e);
    DigitsSkipped(n.whole, f);
    var t := PrintNumber(n) + s;
    if n.negative {
      assert t[1..] == n.whole + f;
    } else {
      assert t == n.whole + f && t[0] == n.whole[0];
    }
  }

  lemma FirstByte(t: Json)
    requires Good(t)
    ensures Print(t) != [] && !IsWs(Print(t)[0])
  {
    if t.Num? { NumberSkipped(t.n, []); }
  }

  /** A member's key is read up to its value. */
  lemma KeyRead(ms: Members, rest: Bytes)
    requires ms.Member? && GoodMembers(ms) && (rest == [] || !IsWs(rest[0]))
    ensures ParseKey(PrintKey(ms) + rest) == Some((Meaning(ms.key), rest))
  {
    hide ParseString, PrintString, Meaning, IsUtf8, SkipWs, Good;
    var s2 := ms.beforeValue + rest;
    var s1 := ms.afterKey + ([COLON] + s2);
    var s0 := PrintString(ms.key) + s1;
    assert PrintKey(ms) + rest == ms.before + s0;
    QuoteFirst(ms.key);
    WsSkipped(ms.before, s0);
    StringOfParts(ms.key, s1);
    WsSkipped(ms.afterKey, [COLON] + s2);
    assert ([COLON] + s2)[1..] == s2;
    WsSkipped(ms.beforeValue, rest);
  }

  lemma QuoteFirst(ps: seq<Part>)
    ensures PrintString(ps) != [] && PrintString(ps)[0] == QUOTE && !IsWs(QUOTE)
  {
  }

  /** The skipper consumes exactly the value: any tree, any leading whitespace, any delimited suffix. */
  lemma {:induction false} ValueSkipped(w: Bytes, t: Json, rest: Bytes)
    requires AllWs(w) && Good(t) && Delimits(rest)
    ensures SkipValue(w + Print(t) + rest) == Some(rest)
    decreases t, 1
  {
    hide SkipWs, SkipValue, Print, Good, Delimits;
    var s := Print(t) + rest;
    FirstByte(t);
    assert w + Print(t) + rest == w + s;
    SkipValueIgnoresWs(w, s);
    match t
    case Arr(pad, items) => ArraySkipped(pad, items, rest);
    case Obj(pad, ms) => ObjectSkipped(pad, ms, rest);
    case _ => ScalarSkipped(t, rest);
  }

  lemma SkipValueIgnoresWs(w: Bytes, s: Bytes)
    requires AllWs(w) && s != [] && !IsWs(s[0])
    ensures SkipValue(w + s) == SkipValue(s)
  {
    hide SkipWs, ParseString, SkipNumber, SkipItems, SkipMembers, ExpectText;
    WsSkipped(w, s);
    WsSkipped([], s);
    assert [] + s == s;
  }

  lemma ScalarSkipped(t: Json, rest: Bytes)
    requires Good(t) && Delimits(rest) && !t.Arr? && !t.Obj?
    ensures SkipValue(Print(t) + rest) == Some(rest)
  {
    hide SkipWs, ParseString, PrintString, SkipNumber, PrintNumber, GoodString, GoodNumber, SkipItems, SkipMembers, ExpectText;
    var s := Print(t) + rest;
    FirstByte(t);
    WsSkipped([], s);
    assert [] + s == s;
    match t
    case Null => LiteralSkipped(NULL_TEXT, rest);
    case True => LiteralSkipped(TRUE_TEXT, rest);
    case False => LiteralSkipped(FALSE_TEXT, rest);
    case Num(n) => NumberSkipped(n, rest);
    case Str(ps) =>
      QuoteFirst(ps);
      StringOfParts(ps, rest);
  }

  /** What the skipper does on text that opens an array or an object. */
  lemma OpenedSkip(s: Bytes)
    requires s != [] && (s[0] == LBRACKET || s[0] == LBRACE)
    ensures
      var u := SkipWs(s[1..]);
      SkipValue(s) ==
        if s[0] == LBRACE then (if Starts(u, RBRACE) then Some(u[1..]) else SkipMembers(u))
        else if Starts(u, RBRACKET) then Some(u[1..]) else SkipItems(u)
  {
    hide SkipWs, SkipItems, SkipMembers, ParseString, SkipNumber, ExpectText;
    WsSkipped([], s);
    assert [] + s == s;
  }

  lemma EmptySkipped(pad: Bytes, close: byte, rest: Bytes)
    requires AllWs(pad) && !IsWs(close)
    ensures SkipWs(pad + [close] + rest) == [close] + rest && ([close] + rest)[1..] == rest
  {
    hide SkipWs;
    assert pad + [close] + rest == pad + ([close] + rest);
    WsSkipped(pad, [close] + rest);
  }

  lemma {:induction false} ArraySkipped(pad: Bytes, items: Items, rest: Bytes)
    requires Good(Arr(pad, items))
    ensures SkipValue(Print(Arr(pad, items)) + rest) == Some(rest)
    decreases items, 2
  {
    var s := Print(Arr(pad, items)) + rest;
    var inner := if items.NoItems? then pad + [RBRACKET] else PrintItems(items);
    assert s[0] == LBRACKET && s[1..] == inner + rest;
    hide SkipWs, SkipItems, SkipMembers, SkipValue, Print, PrintItems;
    OpenedSkip(s);
    if items.NoItems? { EmptySkipped(pad, RBRACKET, rest); } else { ItemsSkipped(items, rest); }
  }

  lemma {:induction false} ObjectSkipped(pad: Bytes, ms: Members, rest: Bytes)
    requires Good(Obj(pad, ms))
    ensures SkipValue(Print(Obj(pad, ms)) + rest) == Some(rest)
    decreases ms, 2
  {
    var s := Print(Obj(pad, ms)) + rest;
    var inner := if ms.NoMembers? then pad + [RBRACE] else PrintMembers(ms);
    assert s[0] == LBRACE && s[1..] == inner + rest;
    hide SkipWs, SkipItems, SkipMembers, SkipValue, Print, PrintMembers;
    OpenedSkip(s);
    if ms.NoMembers? { EmptySkipped(pad, RBRACE, rest); } else { MembersSkipped(ms, rest); }
  }

  lemma LiteralSkipped(text: Bytes, rest: Bytes)
    ensures ExpectText(text + rest, text) == Some(rest)
  {
  }

  /** What follows the value of an item or member. */
  function ItemTail(items: Items): Bytes
    requires items.Item?
  {
    if items.rest.NoItems? then [RBRACKET] else [COMMA] + PrintItems(items.rest)
  }

  /** Past the value and following whitespace of one item. */
  lemma OneItemSkipped(items: Items, s1: Bytes, s2: Bytes, tail: Bytes)
    requires items.Item? && GoodItems(items) && s2 == items.after + tail
    requires tail != [] && !IsWs(tail[0]) && s1 != [] && !IsWs(s1[0]) && SkipValue(s1) == Some(s2)
    ensures SkipItems(items.before + s1)
         == if Starts(tail, COMMA) then SkipItems(tail[1..]) else if Starts(tail, RBRACKET) then Some(tail[1..]) else None
  {
    hide SkipWs, SkipValue, Good;
    WsSkipped(items.before, s1);
    WsSkipped(items.after, tail);
  }

  lemma {:induction false} ItemsSkipped(items: Items, rest: Bytes)
    requires items.Item? && GoodItems(items)
    ensures SkipItems(SkipWs(PrintItems(items) + rest)) == Some(rest)
    ensures !Starts(SkipWs(PrintItems(items) + rest), RBRACKET)
    decreases items, 1
  {
    hide SkipWs, SkipValue, SkipItems, Print, PrintItems, Good;
    var tail := ItemTail(items) + rest;
    var s2 := items.after + tail;
    var s1 := Print(items.v) + s2;
    assert PrintItems(items) + rest == items.before + s1 by { PrintItemsIs(items); }
    FirstByteOfItem(items);
    WsSkipped(items.before, s1);
    SkipItemsIgnoresWs(items.before + s1);
    assert [] + Print(items.v) + s2 == s1;
    assert Delimits(s2) by { DelimitsAfter(items.after, tail); }
    ValueSkipped([], items.v, s2);
    OneItemSkipped(items, s1, s2, tail);
    if items.rest.Item? {
      assert tail[1..] == PrintItems(items.rest) + rest;
      ItemsSkipped(items.rest, rest);
      SkipItemsIgnoresWs(tail[1..]);
    } else {
      assert tail[1..] == rest;
    }
  }

  lemma PrintItemsIs(items: Items)
    requires items.Item?
    ensures PrintItems(items) == items.before + Print(items.v) + items.after + ItemTail(items)
  {
  }

  lemma FirstByteOfItem(items: Items)
    requires items.Item? && GoodItems(items)
    ensures Good(items.v) && Print(items.v) != [] && !IsWs(Print(items.v)[0]) && Print(items.v)[0] != RBRACKET
  {
    FirstByte(items.v);
    if items.v.Num? { NumberSkipped(items.v.n, []); }
  }

  lemma DelimitsAfter(w: Bytes, tail: Bytes)
    requires AllWs(w) && Delimits(tail)
    ensures Delimits(w + tail)
  {
    if w == [] { assert w + tail == tail; }
  }

  lemma {:induction false} SkipWsTwice(s: Bytes)
    ensures SkipWs(SkipWs(s)) == SkipWs(s)
  {
  }

  lemma SkipItemsIgnoresWs(s: Bytes)
    ensures SkipItems(SkipWs(s)) == SkipItems(s)
  {
    hide SkipValue;
    SkipWsTwice(s);
  }

  lemma SkipMembersIgnoresWs(s: Bytes)
    ensures SkipMembers(SkipWs(s)) == SkipMembers(s)
  {
    hide SkipValue;
    SkipWsTwice(s);
  }

  function MemberTail(ms: Members): Bytes
    requires ms.Member?
  {
    if ms.rest.NoMembers? then [RBRACE] else [COMMA] + PrintMembers(ms.rest)
  }

  /** Past the key, value and following whitespace of one member. */
  lemma OneMemberSkipped(ms: Members, s1: Bytes, s2: Bytes, tail: Bytes)
    requires ms.Member? && GoodMembers(ms) && s2 == ms.after + tail
    requires tail != [] && !IsWs(tail[0]) && s1 != [] && !IsWs(s1[0]) && SkipValue(s1) == Some(s2)
    ensures SkipMembers(PrintKey(ms) + s1)
         == if Starts(tail, COMMA) then SkipMembers(tail[1..]) else if Starts(tail, RBRACE) then Some(tail[1..]) else None
  {
    hide SkipWs, SkipValue, Print, PrintMembers, ParseKey, Good, GoodString, Meaning, PrintString, PrintKey;
    KeyRead(ms, s1);
    WsSkipped(ms.after, tail);
  }

  lemma {:induction false} MembersSkipped(ms: Members, rest: Bytes)
    requires ms.Member? && GoodMembers(ms)
    ensures SkipMembers(SkipWs(PrintMembers(ms) + rest)) == Some(rest)
    ensures !Starts(SkipWs(PrintMembers(ms) + rest), RBRACE)
    decreases ms, 1
  {
    hide SkipWs, SkipValue, SkipMembers, Print, PrintMembers, Good, GoodString, Meaning, PrintString, PrintKey;
    var tail := MemberTail(ms) + rest;
    var s2 := ms.after + tail;
    var s1 := Print(ms.v) + s2;
    assert PrintMembers(ms) + rest == PrintKey(ms) + s1 by { PrintMembersIs(ms); }
    FirstByteOfMember(ms, s1);
    FirstByte(ms.v);
    SkipMembersIgnoresWs(PrintKey(ms) + s1);
    assert [] + Print(ms.v) + s2 == s1;
    assert Delimits(s2) by { DelimitsAfter(ms.after, tail); }
    ValueSkipped([], ms.v, s2);
    OneMemberSkipped(ms, s1, s2, tail);
    if ms.rest.Member? {
      assert tail[1..] == PrintMembers(ms.rest) + rest;
      MembersSkipped(ms.rest, rest);
      SkipMembersIgnoresWs(tail[1..]);
    } else {
      assert tail[1..] == rest;
    }
  }

  lemma PrintMembersIs(ms: Members)
    requires ms.Member?
    ensures PrintMembers(ms) == PrintKey(ms) + (Print(ms.v) + ms.after + MemberTail(ms))
  {
  }

  lemma FirstByteOfMember(ms: Members, s: Bytes)
    requires ms.Member? && AllWs(ms.before)
    ensures !Starts(SkipWs(PrintKey(ms) + s), RBRACE)
  {
    hide SkipWs, PrintString;
    var more := PrintString(ms.key) + (ms.afterKey + [COLON] + ms.beforeValue + s);
    QuoteFirst(ms.key);
    assert PrintKey(ms) + s == ms.before + more;
    WsSkipped(ms.before, more);
  }

  // ---------- soundness ----------

  lemma Regroup4(a: Bytes, b: Bytes, c: Bytes, d: Bytes)
    ensures a + (b + (c + d)) == a + b + c + d
  {
  }

  lemma Regroup5(a: Bytes, b: Bytes, c: Bytes, d: Bytes, e: Bytes)
    ensures a + (b + (c + (d + e))) == a + b + c + d + e
  {
  }

  lemma WsSpan(s: Bytes) returns (w: Bytes)
    ensures AllWs(w) && s == w + SkipWs(s)
    decreases |s|
  {
    if s != [] && IsWs(s[0]) {
      w := WsSpan(s[1..]);
      w := [s[0]] + w;
      assert s == [s[0]] + s[1..];
    } else {
      w := [];
    }
  }

  lemma DigitSpan(s: Bytes) returns (d: Bytes)
    ensures AllDigits(d) && s == d + SkipDigits(s)
    ensures s != [] && IsDigit(s[0]) ==> d != []
    decreases |s|
  {
    if s != [] && IsDigit(s[0]) {
      d := DigitSpan(s[1..]);
      d := [s[0]] + d;
      assert s == [s[0]] + s[1..];
    } else {
      d := [];
    }
  }

  lemma FractionSpan(s: Bytes) returns (f: Option<Bytes>)
    requires SkipFraction(s).Some?
    ensures (f.Some? ==> Digits(f.value)) && s == PrintFraction(f) + SkipFraction(s).value
  {
    hide SkipDigits;
    if Starts(s, DOT) {
      var d := DigitSpan(s[1..]);
      f := Some(d);
      assert s == [DOT] + s[1..];
    } else {
      f := None;
    }
  }

  lemma ExponentSpan(s: Bytes) returns (e: Option<Exponent>)
    requires SkipExponent(s).Some?
    ensures (e.Some? ==> GoodExponent(e.value)) && s == PrintExponent(e) + SkipExponent(s).value
  {
    hide SkipDigits, DropSign, IsSign;
    if Starts(s, 0x65) || Starts(s, 0x45) {
      var t := s[1..];
      var d := DigitSpan(DropSign(t));
      var sign := SignSpan(t);
      e := Some(Exponent(s[0], sign, d));
      Regroup4([s[0]], sign, d, SkipDigits(DropSign(t)));
      assert s == [s[0]] + t;
    } else {
      e := None;
    }
  }

  lemma SignSpan(t: Bytes) returns (sign: Bytes)
    ensures IsSign(sign) && t == sign + DropSign(t)
  {
    sign := if Starts(t, PLUS) || Starts(t, MINUS) then [t[0]] else [];
  }

  lemma NumberSpan(s: Bytes) returns (n: Number)
    requires SkipNumber(s).Some?
    ensures GoodNumber(n) && s == PrintNumber(n) + SkipNumber(s).value
  {
    hide SkipDigits, SkipFraction, SkipExponent;
    var negative := Starts(s, MINUS);
    var t := if negative then s[1..] else s;
    assert s == (if negative then [MINUS] else []) + t;
    var d := DigitSpan(t);
    var f := FractionSpan(SkipDigits(t));
    var e := ExponentSpan(SkipFraction(SkipDigits(t)).value);
    n := Number(negative, d, f, e);
    Regroup5(if negative then [MINUS] else [], d, PrintFraction(f), PrintExponent(e), SkipNumber(s).value);
  }

  /** A literal name at the front. */
  lemma LiteralSpan(s: Bytes, text: Bytes)
    requires ExpectText(s, text).Some?
    ensures s == text + ExpectText(s, text).value
  {
  }

  /** Everything the skipper accepts is whitespace and one well-formed value. */
  lemma ValueSpan(s: Bytes) returns (w: Bytes, t: Json)
    requires SkipValue(s).Some?
    ensures AllWs(w) && Good(t) && s == w + Print(t) + SkipValue(s).value
    decreases |s|, 1
  {
    hide ParseString, SkipNumber, SkipItems, SkipMembers, Print, Good;
    SkipValueAt(s);
    w := WsSpan(s);
    var u := SkipWs(s);
    if u[0] == LBRACE {
      t := ObjectSpanned(u);
    } else if u[0] == LBRACKET {
      t := ArraySpanned(u);
    } else {
      t := ScalarSpan(u);
    }
    assert s == w + (Print(t) + SkipValue(s).value);
  }

  /** Leading whitespace does not matter to the skipper. */
  lemma SkipValueAt(s: Bytes)
    ensures SkipValue(SkipWs(s)) == SkipValue(s)
  {
    hide SkipMembers, SkipItems, SkipNumber, ParseString, ExpectText;
    SkipWsTwice(s);
  }

  lemma OpenJoin(u: Bytes, pad: Bytes, inner: Bytes, body: Bytes, rest: Bytes)
    requires u != [] && u[1..] == pad + inner && inner == body + rest
    ensures u == [u[0]] + (pad + body) + rest
  {
    assert u == [u[0]] + u[1..];
    assert pad + (body + rest) == pad + body + rest;
  }

  lemma ObjectSpanned(u: Bytes) returns (t: Json)
    requires SkipValue(u).Some? && u[0] == LBRACE
    ensures Good(t) && u == Print(t) + SkipValue(u).value
    decreases |u|, 0
  {
    OpenedSkip(u);
    hide SkipWs, SkipValue, SkipMembers, SkipItems, PrintMembers, ParseString;
    var pad := WsSpan(u[1..]);
    var inner := SkipWs(u[1..]);
    if Starts(inner, RBRACE) {
      assert inner == [RBRACE] + inner[1..];
      t := Obj(pad, NoMembers);
      OpenJoin(u, pad, inner, [RBRACE], inner[1..]);
    } else {
      var ms := MembersSpan(inner);
      t := Obj([], ms.(before := pad + ms.before));
      PadMembers(pad, ms);
      OpenJoin(u, pad, inner, PrintMembers(ms), SkipMembers(inner).value);
    }
  }

  lemma ArraySpanned(u: Bytes) returns (t: Json)
    requires SkipValue(u).Some? && u[0] == LBRACKET
    ensures Good(t) && u == Print(t) + SkipValue(u).value
    decreases |u|, 0
  {
    OpenedSkip(u);
    hide SkipWs, SkipValue, SkipMembers, SkipItems, PrintItems, ParseString;
    var pad := WsSpan(u[1..]);
    var inner := SkipWs(u[1..]);
    if Starts(inner, RBRACKET) {
      assert inner == [RBRACKET] + inner[1..];
      t := Arr(pad, NoItems);
      OpenJoin(u, pad, inner, [RBRACKET], inner[1..]);
    } else {
      var items := ItemsSpan(inner);
      t := Arr([], items.(before := pad + items.before));
      PadItems(pad, items);
      OpenJoin(u, pad, inner, PrintItems(items), SkipItems(inner).value);
    }
  }

  lemma ScalarSpan(u: Bytes) returns (t: Json)
    requires SkipValue(u).Some? && u[0] != LBRACE && u[0] != LBRACKET && !IsWs(u[0])
    ensures Good(t) && u == Print(t) + SkipValue(u).value
  {
    hide ParseString, PrintString, SkipNumber, PrintNumber, GoodString, GoodNumber;
    assert SkipWs(u) == u;
    if u[0] == QUOTE {
      var ps := StringIsParts(u);
      t := Str(ps);
    } else if u[0] == MINUS || IsDigit(u[0]) {
      var n := NumberSpan(u);
      t := Num(n);
    } else if u[0] == TRUE_TEXT[0] {
      LiteralSpan(u, TRUE_TEXT);
      t := True;
    } else if u[0] == FALSE_TEXT[0] {
      LiteralSpan(u, FALSE_TEXT);
      t := False;
    } else {
      LiteralSpan(u, NULL_TEXT);
      t := Null;
    }
  }

  lemma PadItems(pad: Bytes, items: Items)
    requires items.Item?
    ensures PrintItems(items.(before := pad + items.before)) == pad + PrintItems(items)
  {
    hide Print, PrintItems, ItemTail;
    PrintItemsIs(items);
    PrintItemsIs(items.(before := pad + items.before));
    assert ItemTail(items.(before := pad + items.before)) == ItemTail(items) by { TailIgnoresBefore(items, pad); }
    Regroup4(items.before, Print(items.v), items.after, ItemTail(items));
    Regroup4(pad + items.before, Print(items.v), items.after, ItemTail(items));
    var more := Print(items.v) + (items.after + ItemTail(items));
    assert pad + items.before + more == pad + (items.before + more);
  }

  lemma TailIgnoresBefore(items: Items, pad: Bytes)
    requires items.Item?
    ensures ItemTail(items.(before := pad + items.before)) == ItemTail(items)
  {
  }

  lemma PadMembers(pad: Bytes, ms: Members)
    requires ms.Member?
    ensures PrintMembers(ms.(before := pad + ms.before)) == pad + PrintMembers(ms)
  {
    hide Print, PrintString, PrintMembers, PrintKey;
    PrintMembersIs(ms);
    PrintMembersIs(ms.(before := pad + ms.before));
    PadKey(pad, ms);
    var value := Print(ms.v) + ms.after + MemberTail(ms);
    assert pad + PrintKey(ms) + value == pad + (PrintKey(ms) + value);
  }

  lemma PadKey(pad: Bytes, ms: Members)
    requires ms.Member?
    ensures PrintKey(ms.(before := pad + ms.before)) == pad + PrintKey(ms)
  {
    hide PrintString;
    Regroup5(pad + ms.before, PrintString(ms.key), ms.afterKey, [COLON], ms.beforeValue);
    Regroup5(ms.before, PrintString(ms.key), ms.afterKey, [COLON], ms.beforeValue);
    var key := PrintString(ms.key) + (ms.afterKey + ([COLON] + ms.beforeValue));
    assert pad + ms.before + key == pad + (ms.before + key);
  }

  lemma ItemsSpan(s: Bytes) returns (items: Items)
    requires SkipItems(s).Some?
    ensures items.Item? && GoodItems(items) && s == PrintItems(items) + SkipItems(s).value
    decreases |s|, 2
  {
    hide SkipWs, SkipValue, Print, Good;
    var lead := WsSpan(s);
    var w, v := ValueSpan(SkipWs(s));
    var after := WsSpan(SkipValue(SkipWs(s)).value);
    var t := SkipWs(SkipValue(SkipWs(s)).value);
    assert t == [t[0]] + t[1..];
    var more := NoItems;
    if t[0] == COMMA {
      more := ItemsSpan(t[1..]);
      assert t == [COMMA] + PrintItems(more) + SkipItems(s).value;
    }
    items := Item(lead + w, v, after, more);
    ItemsJoin(items, lead, w, s, SkipItems(s).value);
  }

  lemma Flatten6(lead: Bytes, w: Bytes, v: Bytes, after: Bytes, tail: Bytes, rest: Bytes)
    ensures lead + (w + v + (after + (tail + rest))) == lead + w + v + after + tail + rest
  {
    assert w + v + (after + (tail + rest)) == w + v + after + tail + rest;
  }

  lemma ItemsJoin(items: Items, lead: Bytes, w: Bytes, s: Bytes, rest: Bytes)
    requires items.Item? && items.before == lead + w
    requires s == lead + (w + Print(items.v) + (items.after + (ItemTail(items) + rest)))
    ensures s == PrintItems(items) + rest
  {
    hide Print, PrintItems, ItemTail;
    PrintItemsIs(items);
    Flatten6(lead, w, Print(items.v), items.after, ItemTail(items), rest);
  }

  lemma KeySpan(s: Bytes) returns (before: Bytes, key: seq<Part>, afterKey: Bytes, beforeValue: Bytes)
    requires ParseKey(s).Some?
    ensures AllWs(before) && GoodString(key) && AllWs(afterKey) && AllWs(beforeValue)
    ensures Meaning(key) == ParseKey(s).value.0
    ensures s == before + PrintString(key) + afterKey + [COLON] + beforeValue + ParseKey(s).value.1
  {
    hide SkipWs, ParseString, PrintString, IsUtf8, Meaning;
    before := WsSpan(s);
    key := StringIsParts(SkipWs(s));
    var k := ParseString(SkipWs(s)).value;
    afterKey := WsSpan(k.1);
    var c := SkipWs(k.1);
    assert c == [COLON] + c[1..];
    beforeValue := WsSpan(c[1..]);
  }

  lemma MembersSpan(s: Bytes) returns (ms: Members)
    requires SkipMembers(s).Some?
    ensures ms.Member? && GoodMembers(ms) && s == PrintMembers(ms) + SkipMembers(s).value
    decreases |s|, 0
  {
    hide SkipWs, SkipValue, Print, Good, ParseKey, GoodString, PrintString, Meaning;
    var before, key, afterKey, beforeValue := KeySpan(s);
    var k := ParseKey(s).value;
    var w, v := ValueSpan(k.1);
    var after := WsSpan(SkipValue(k.1).value);
    var t := SkipWs(SkipValue(k.1).value);
    assert t == [t[0]] + t[1..];
    var more := NoMembers;
    if t[0] == COMMA {
      more := MembersSpan(t[1..]);
      assert t == [COMMA] + PrintMembers(more) + SkipMembers(s).value;
    }
    ms := Member(before, key, afterKey, beforeValue + w, v, after, more);
    assert t == MemberTail(ms) + SkipMembers(s).value;
    MembersJoin(ms, beforeValue, w, s, SkipMembers(s).value);
  }

  lemma MembersJoin(ms: Members, beforeValue: Bytes, w: Bytes, s: Bytes, rest: Bytes)
    requires ms.Member? && ms.beforeValue == beforeValue + w
    requires s == ms.before + PrintString(ms.key) + ms.afterKey + [COLON] + beforeValue
                  + (w + Print(ms.v) + (ms.after + (MemberTail(ms) + rest)))
    ensures s == PrintMembers(ms) + rest
  {
    hide Print, PrintString, PrintMembers, MemberTail;
    PrintMembersIs(ms);
    var front := ms.before + PrintString(ms.key) + ms.afterKey + [COLON];
    Rejoin(front, beforeValue, w, Print(ms.v), ms.after, MemberTail(ms), rest);
  }

  lemma Rejoin(front: Bytes, b: Bytes, w: Bytes, v: Bytes, after: Bytes, tail: Bytes, rest: Bytes)
    ensures front + b + (w + v + (after + (tail + rest))) == front + (b + w) + (v + after + tail) + rest
  {
    assert w + v + (after + (tail + rest)) == w + (v + after + tail + rest);
    assert front + b + (w + (v + after + tail + rest)) == front + (b + w) + (v + after + tail + rest);
    assert front + (b + w) + (v + after + tail + rest) == front + (b + w) + (v + after + tail) + rest;
  }
}
