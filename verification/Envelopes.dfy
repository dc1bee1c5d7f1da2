/**
 The HTTP envelopes of the guest adapters: what the member parsers mean on value
 trees, and the printed request they read back.
 */
module Envelopes {
  import opened Words
  import opened JsonText
  import opened JsonScan
  import opened JsonMembers
  import Base64

  type Header = (Bytes, Bytes)

  const K := Ascii("k")
  const V := Ascii("v")
  const BYTES_LEN := Ascii("bytes_len")
  const BASE64 := Ascii("base64")
  const TEXT := Ascii("text")
  const SCHEMA_VERSION := Ascii("schema_version")
  const REQUEST_ID := Ascii("request_id")
  const STATUS := Ascii("status")
  const HEADERS := Ascii("headers")
  const BODY := Ascii("body")
  const RESPONSE_SCHEMA := Ascii("x07.http.response.envelope@0.1.0")
  const REQUEST_SCHEMA := Ascii("x07.http.request.envelope@0.1.0")

  datatype HeaderFields = HeaderFields(k: Option<Bytes>, v: Option<Bytes>)
  datatype PayloadFields = PayloadFields(len: Option<nat>, b64: Option<Bytes>, text: Option<Bytes>)
  datatype Fields = Fields(schema: Option<Bytes>, id: Option<Bytes>, status: Option<nat>,
                           headers: Option<seq<Header>>, body: Option<Bytes>)
  datatype Response = Response(id: Bytes, status: nat, headers: seq<Header>, body: Bytes)

  const NO_HEADER := HeaderFields(None, None)
  const NO_PAYLOAD := PayloadFields(None, None, None)
  const NO_FIELDS := Fields(None, None, None, None, None)

  // ---------- the parsers, on the remaining bytes ----------

  function Skip<S>(st: S, s: Bytes): Option<(S, Bytes)> {
    var r := SkipValue(s);
    if r.None? then None else Some((st, r.value))
  }

  function HeaderStep(f: HeaderFields, key: Bytes, s: Bytes): Option<(HeaderFields, Bytes)> {
    if key == K || key == V then
      var r := ParseString(s);
      if r.None? then None
      else Some((if key == K then f.(k := Some(r.value.0)) else f.(v := Some(r.value.0)), r.value.1))
    else Skip(f, s)
  }

  function ParseHeader(s: Bytes): (r: Option<(Header, Bytes)>)
    ensures r.Some? ==> |r.value.1| < |s|
  {
    var r := ObjectLoop(HeaderStep, NO_HEADER, SkipWs(s));
    if r.None? || r.value.0.k.None? || r.value.0.v.None? then None
    else Some(((r.value.0.k.value, r.value.0.v.value), r.value.1))
  }

  /** The headers of a non-empty list, from the first one. */
  function HeaderLoop(out: seq<Header>, s: Bytes): (r: Option<(seq<Header>, Bytes)>)
    ensures r.Some? ==> |r.value.1| < |s|
    decreases |s|
  {
    var h := ParseHeader(s);
    if h.None? then None
    else
      var t := SkipWs(h.value.1);
      if Starts(t, COMMA) then HeaderLoop(out + [h.value.0], t[1..])
      else if Starts(t, RBRACKET) then Some((out + [h.value.0], t[1..]))
      else None
  }

  function ParseHeaders(s: Bytes): (r: Option<(seq<Header>, Bytes)>)
    ensures r.Some? ==> |r.value.1| < |s|
  {
    var o := Expect(s, LBRACKET);
    if o.None? then None
    else
      var t := SkipWs(o.value);
      if Starts(t, RBRACKET) then Some(([], t[1..])) else HeaderLoop([], t)
  }

  function PayloadStep(f: PayloadFields, key: Bytes, s: Bytes): Option<(PayloadFields, Bytes)> {
    if key == BYTES_LEN then
      var r := ParseU32(s);
      if r.None? then None else Some((f.(len := Some(r.value.0)), r.value.1))
    else if key == BASE64 || key == TEXT then
      var r := ParseString(s);
      if r.None? then None
      else Some((if key == BASE64 then f.(b64 := Some(r.value.0)) else f.(text := Some(r.value.0)), r.value.1))
    else Skip(f, s)
  }

  function FinishPayload(f: PayloadFields): Option<Bytes> {
    if f.len.None? then None
    else if f.b64.Some? then
      var d := Base64.StdDecode(f.b64.value);
      if d.Some? && |d.value| == f.len.value then d else None
    else if f.text.Some? then
      (if |f.text.value| == f.len.value then f.text else None)
    else if f.len.value == 0 then Some([])
    else None
  }

  function ParsePayload(s: Bytes): (r: Option<(Bytes, Bytes)>)
    ensures r.Some? ==> |r.value.1| < |s|
  {
    var r := ObjectLoop(PayloadStep, NO_PAYLOAD, s);
    if r.None? then None
    else
      var b := FinishPayload(r.value.0);
      if b.None? then None else Some((b.value, r.value.1))
  }

  function ResponseStep(f: Fields, key: Bytes, s: Bytes): Option<(Fields, Bytes)> {
    if key == SCHEMA_VERSION || key == REQUEST_ID then
      var r := ParseString(s);
      if r.None? then None
      else Some((if key == SCHEMA_VERSION then f.(schema := Some(r.value.0)) else f.(id := Some(r.value.0)), r.value.1))
    else if key == STATUS then
      var r := ParseU16(s);
      if r.None? then None else Some((f.(status := Some(r.value.0)), r.value.1))
    else if key == HEADERS then
      var r := ParseHeaders(s);
      if r.None? then None else Some((f.(headers := Some(r.value.0)), r.value.1))
    else if key == BODY then
      var r := ParsePayload(s);
      if r.None? then None else Some((f.(body := Some(r.value.0)), r.value.1))
    else Skip(f, s)
  }

  function FinishResponse(f: Fields): Option<Response> {
    if f.schema != Some(RESPONSE_SCHEMA) || f.id.None? || f.status.None? || f.headers.None? || f.body.None? then None
    else Some(Response(f.id.value, f.status.value, f.headers.value, f.body.value))
  }

  /** `parse_response_envelope`; None where it panics. */
  function ParseResponse(s: Bytes): Option<Response> {
    var r := ObjectLoop(ResponseStep, NO_FIELDS, SkipWs(s));
    if r.None? then None else FinishResponse(r.value.0)
  }

  // ---------- what they mean on trees ----------

  function EvalText(v: Json): Option<Bytes> {
    if v.Str? && GoodParts(v.parts) then Some(Meaning(v.parts)) else None
  }

  function DigitsValue(n: nat, d: Bytes): nat
    requires AllDigits(d)
    decreases |d|
  {
    if d == [] then n
    else
      DigitsValue(n * 10 + (d[0] - 0x30), d[1..])
  }

  /** An unsigned whole number below the bound. */
  function EvalUint(v: Json, bound: nat): Option<nat> {
    if v.Num? && !v.n.negative && v.n.fraction.None? && v.n.exponent.None? && Digits(v.n.whole)
       && DigitsValue(0, v.n.whole) < bound
    then Some(DigitsValue(0, v.n.whole)) else None
  }

  lemma {:induction false} DigitsDenote(a: Bytes, d: Bytes)
    requires AllDigits(a) && AllDigits(d)
    ensures AllDigits(a + d) && DigitsValue(DecimalValue(a), d) == DecimalValue(a + d)
    decreases |d|
  {
    if d == [] {
      assert a + d == a;
    } else {
      var more := a + [d[0]];
      assert more[..|a|] == a && more + d[1..] == a + d;
      DigitsDenote(more, d[1..]);
    }
  }

  /** A number is read exactly when it is written as digits alone, and then as the number they denote. */
  lemma UintIff(v: Json, bound: nat, n: nat)
    requires Good(v)
    ensures EvalUint(v, bound) == Some(n) <==>
      && v.Num? && !v.n.negative && v.n.fraction.None? && v.n.exponent.None?
      && n == DecimalValue(v.n.whole) && n < bound
  {
    if v.Num? {
      DigitsDenote([], v.n.whole);
      assert [] + v.n.whole == v.n.whole;
    }
  }

  function HeaderEval(f: HeaderFields, key: Bytes, v: Json): Option<HeaderFields> {
    if key == K || key == V then
      var t := EvalText(v);
      if t.None? then None else Some(if key == K then f.(k := t) else f.(v := t))
    else Some(f)
  }

  function FoldObject<S>(eval: Evaluator<S>, st: S, v: Json): Option<S> {
    if v.Obj? && v.members.Member? && GoodMembers(v.members) then FoldMembers(eval, st, v.members) else None
  }

  function EvalHeader(v: Json): Option<Header> {
    var f := FoldObject(HeaderEval, NO_HEADER, v);
    if f.None? || f.value.k.None? || f.value.v.None? then None else Some((f.value.k.value, f.value.v.value))
  }

  function EvalHeaderItems(out: seq<Header>, items: Items): Option<seq<Header>>
    decreases items
  {
    if items.NoItems? then Some(out)
    else
      var h := EvalHeader(items.v);
      if h.None? then None else EvalHeaderItems(out + [h.value], items.rest)
  }

  function EvalHeaders(v: Json): Option<seq<Header>> {
    if v.Arr? then EvalHeaderItems([], v.items) else None
  }

  function PayloadEval(f: PayloadFields, key: Bytes, v: Json): Option<PayloadFields> {
    if key == BYTES_LEN then
      var n := EvalUint(v, TWO32);
      if n.None? then None else Some(f.(len := n))
    else if key == BASE64 || key == TEXT then
      var t := EvalText(v);
      if t.None? then None else Some(if key == BASE64 then f.(b64 := t) else f.(text := t))
    else Some(f)
  }

  function EvalPayload(v: Json): Option<Bytes> {
    var f := FoldObject(PayloadEval, NO_PAYLOAD, v);
    if f.None? then None else FinishPayload(f.value)
  }

  function ResponseEval(f: Fields, key: Bytes, v: Json): Option<Fields> {
    if key == SCHEMA_VERSION || key == REQUEST_ID then
      var t := EvalText(v);
      if t.None? then None else Some(if key == SCHEMA_VERSION then f.(schema := t) else f.(id := t))
    else if key == STATUS then
      var n := EvalUint(v, 0x1_0000);
      if n.None? then None else Some(f.(status := n))
    else if key == HEADERS then
      var h := EvalHeaders(v);
      if h.None? then None else Some(f.(headers := h))
    else if key == BODY then
      var b := EvalPayload(v);
      if b.None? then None else Some(f.(body := b))
    else Some(f)
  }

  function EvalResponse(v: Json): Option<Response> {
    var f := FoldObject(ResponseEval, NO_FIELDS, v);
    if f.None? then None else FinishResponse(f.value)
  }

  // ---------- parsers agree with meanings ----------

  lemma TextAgrees(v: Json, rest: Bytes)
    requires Good(v)
    ensures ParseString(Print(v) + rest) == Outcome(EvalText(v), rest)
  {
    hide IsUtf8, PrintString, Meaning;
    if v.Str? {
      StringOfParts(v.parts, rest);
    } else {
      FirstByte(v);
      if v.Num? { NumberSkipped(v.n, []); }
      assert (Print(v) + rest)[0] == Print(v)[0];
    }
  }

  lemma {:induction false} DigitsRead(n: nat, d: Bytes, rest: Bytes)
    requires AllDigits(d) && NoDigitNext(rest) && n < TWO32
    ensures DigitsFrom(n, d + rest) == if DigitsValue(n, d) < TWO32 then Some((DigitsValue(n, d), rest)) else None
    decreases |d|
  {
    if d == [] {
      assert d + rest == rest;
    } else {
      var n1 := n * 10 + (d[0] - 0x30);
      assert (d + rest)[1..] == d[1..] + rest;
      if n1 < TWO32 { DigitsRead(n1, d[1..], rest); } else { DigitsGrow(n1, d[1..]); }
    }
  }

  lemma {:induction false} DigitsGrow(n: nat, d: Bytes)
    requires AllDigits(d)
    ensures DigitsValue(n, d) >= n
    decreases |d|
  {
    if d != [] {
      DigitsGrow(n * 10 + (d[0] - 0x30), d[1..]);
    }
  }

  /** A number that is not a plain whole number leaves bytes the loop cannot continue on. */
  lemma UintAgrees(v: Json, rest: Bytes)
    requires Good(v) && Delimits(rest)
    ensures
      var r := ParseU32(Print(v) + rest);
      match EvalUint(v, TWO32)
      case Some(n) => r == Some((n, rest))
      case None => r.None? || Blocks(r.value.1)
  {
    hide DigitsFrom, DigitsValue, PrintString;
    var s := Print(v) + rest;
    if v.Num? && !v.n.negative {
      var tail := PrintFraction(v.n.fraction) + PrintExponent(v.n.exponent) + rest;
      assert s == v.n.whole + tail;
      TailAfterWhole(v.n, rest);
      assert s[0] == v.n.whole[0];
      DigitsRead(0, v.n.whole, tail);
    } else {
      FirstByte(v);
      if v.Str? { QuoteFirst(v.parts); }
      assert s[0] == Print(v)[0];
    }
  }

  lemma TailAfterWhole(n: Number, rest: Bytes)
    requires GoodNumber(n) && Delimits(rest)
    ensures
      var tail := PrintFraction(n.fraction) + PrintExponent(n.exponent) + rest;
      NoDigitNext(tail) && (if n.fraction.None? && n.exponent.None? then tail == rest else Blocks(tail))
  {
  }

  lemma HeaderAgrees()
    ensures Agrees(HeaderStep, HeaderEval)
  {
    hide ParseString, SkipValue, Print, Good, EvalText;
    forall f, key, v, rest ensures AgreesOn(HeaderStep, HeaderEval, f, key, v, rest) {
      if Good(v) && Delimits(rest) {
        TextAgrees(v, rest);
        SkipAgrees(f, v, rest);
      }
    }
  }

  lemma SkipAgrees<S>(st: S, v: Json, rest: Bytes)
    requires Good(v) && Delimits(rest)
    ensures Skip(st, Print(v) + rest) == Some((st, rest))
  {
    ValueSkipped([], v, rest);
    assert [] + Print(v) + rest == Print(v) + rest;
  }

  lemma PayloadAgrees()
    ensures Agrees(PayloadStep, PayloadEval)
  {
    hide ParseString, ParseU32, SkipValue, Print, Good, EvalText, EvalUint;
    forall f, key, v, rest ensures AgreesOn(PayloadStep, PayloadEval, f, key, v, rest) {
      if Good(v) && Delimits(rest) {
        TextAgrees(v, rest);
        UintAgrees(v, rest);
        SkipAgrees(f, v, rest);
      }
    }
  }

  lemma ObjectAgrees<S(!new)>(step: Handler<S>, eval: Evaluator<S>, st: S, v: Json, rest: Bytes)
    requires Agrees(step, eval) && Good(v)
    ensures ObjectLoop(step, st, Print(v) + rest) == Outcome(FoldObject(eval, st, v), rest)
  {
    hide Print, ObjectLoop, FoldMembers;
    if v.Obj? { ObjectEvaluated(step, eval, st, v, rest); } else { NotAnObject(step, st, v, rest); }
  }

  lemma PayloadParsed(v: Json, rest: Bytes)
    requires Good(v)
    ensures ParsePayload(Print(v) + rest) == Outcome(EvalPayload(v), rest)
  {
    hide Print, ObjectLoop, FoldObject, FinishPayload;
    PayloadAgrees();
    ObjectAgrees(PayloadStep, PayloadEval, NO_PAYLOAD, v, rest);
  }

  lemma HeaderParsed(w: Bytes, v: Json, rest: Bytes)
    requires AllWs(w) && Good(v)
    ensures ParseHeader(w + (Print(v) + rest)) == Outcome(EvalHeader(v), rest)
  {
    hide Print, ObjectLoop, FoldObject, SkipWs;
    HeaderAgrees();
    FirstByte(v);
    WsSkipped(w, Print(v) + rest);
    ObjectAgrees(HeaderStep, HeaderEval, NO_HEADER, v, rest);
  }

  lemma {:induction false} HeaderItemsParsed(out: seq<Header>, items: Items, rest: Bytes)
    requires items.Item? && GoodItems(items)
    ensures HeaderLoop(out, PrintItems(items) + rest) == Outcome(EvalHeaderItems(out, items), rest)
    decreases items
  {
    hide Print, PrintItems, SkipWs, ParseHeader, EvalHeader, Good;
    var tail := ItemTail(items) + rest;
    var s1 := Print(items.v) + (items.after + tail);
    assert PrintItems(items) + rest == items.before + s1 by { PrintItemsIs(items); }
    HeaderParsed(items.before, items.v, items.after + tail);
    WsSkipped(items.after, tail);
    var h := EvalHeader(items.v);
    if h.Some? {
      if items.rest.Item? {
        assert tail[1..] == PrintItems(items.rest) + rest;
        HeaderItemsParsed(out + [h.value], items.rest, rest);
      } else {
        assert tail[1..] == rest;
      }
    }
  }

  lemma HeaderLoopIgnoresWs(out: seq<Header>, s: Bytes)
    ensures HeaderLoop(out, SkipWs(s)) == HeaderLoop(out, s)
  {
    hide ObjectLoop;
    SkipWsTwice(s);
  }

  lemma HeadersParsed(v: Json, rest: Bytes)
    requires Good(v)
    ensures ParseHeaders(Print(v) + rest) == Outcome(EvalHeaders(v), rest)
  {
    hide SkipWs, HeaderLoop, PrintItems, EvalHeader, PrintNumber, PrintString;
    var s := Print(v) + rest;
    if v.Arr? {
      if v.items.NoItems? {
        assert s[1..] == v.pad + ([RBRACKET] + rest);
        WsSkipped(v.pad, [RBRACKET] + rest);
        assert ([RBRACKET] + rest)[1..] == rest;
      } else {
        assert s[1..] == PrintItems(v.items) + rest;
        ItemsSkipped(v.items, rest);
        HeaderLoopIgnoresWs([], s[1..]);
        HeaderItemsParsed([], v.items, rest);
      }
    } else {
      FirstByte(v);
      if v.Num? { NumberSkipped(v.n, []); }
      if v.Str? { QuoteFirst(v.parts); }
      assert s[0] == Print(v)[0];
    }
  }

  lemma StatusAgrees(v: Json, rest: Bytes)
    requires Good(v) && Delimits(rest)
    ensures
      var r := ParseU16(Print(v) + rest);
      match EvalUint(v, 0x1_0000)
      case Some(n) => r == Some((n, rest))
      case None => r.None? || Blocks(r.value.1)
  {
    hide ParseU32, Print, DigitsValue;
    UintAgrees(v, rest);
  }

  lemma ResponseAgrees()
    ensures Agrees(ResponseStep, ResponseEval)
  {
    hide ParseString, ParseU16, SkipValue, Print, Good, EvalText, EvalUint, ParseHeaders, EvalHeaders, ParsePayload, EvalPayload;
    forall f, key, v, rest ensures AgreesOn(ResponseStep, ResponseEval, f, key, v, rest) {
      if Good(v) && Delimits(rest) {
        TextAgrees(v, rest);
        StatusAgrees(v, rest);
        HeadersParsed(v, rest);
        PayloadParsed(v, rest);
        SkipAgrees(f, v, rest);
      }
    }
  }

  /** Parsing the text of a value, with any surrounding bytes after it, is evaluating its tree. */
  lemma ResponseParsed(w: Bytes, v: Json, rest: Bytes)
    requires AllWs(w) && Good(v)
    ensures ParseResponse(w + Print(v) + rest) == EvalResponse(v)
  {
    hide Print, ObjectLoop, FoldObject, FinishResponse, SkipWs;
    ResponseAgrees();
    FirstByte(v);
    assert w + Print(v) + rest == w + (Print(v) + rest);
    WsSkipped(w, Print(v) + rest);
    ObjectAgrees(ResponseStep, ResponseEval, NO_FIELDS, v, rest);
  }
}
