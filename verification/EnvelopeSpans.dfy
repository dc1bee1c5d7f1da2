/**
 The envelope parsers accept nothing but envelopes: every text they accept is
 whitespace, one well-formed value with that meaning, and any bytes after it.
 With the lemmas that read such texts back this says exactly what is accepted.
 */
module EnvelopeSpans {
  import opened Words
  import opened JsonText
  import opened JsonScan
  import opened JsonMembers
  import opened Envelopes
  import opened StateTurns

  // ---------- objects ----------

  /** The text is one value, which the evaluator takes from st to st', and the rest. */
  ghost predicate ReadsAs<S>(eval: Evaluator<S>, st: S, key: Bytes, v: Json, s: Bytes, after: (S, Bytes)) {
    Good(v) && s == Print(v) + after.1 && eval(st, key, v) == Some(after.0)
  }

  predicate AtValue(s: Bytes) { s == [] || !IsWs(s[0]) }

  ghost predicate SpansOn<S>(step: Handler<S>, eval: Evaluator<S>, st: S, key: Bytes, s: Bytes) {
    AtValue(s) && step(st, key, s).Some? ==> exists v: Json :: ReadsAs(eval, st, key, v, s, step(st, key, s).value)
  }

  /** What the handler consumes is one value with the meaning of the new state. */
  ghost predicate Spans<S(!new)>(step: Handler<S>, eval: Evaluator<S>) {
    forall st: S, key: Bytes, s: Bytes :: SpansOn(step, eval, st, key, s)
  }

  /** The loop over the members has read the members of an object and folded their meanings. */
  lemma LoopSpan<S(!new)>(step: Handler<S>, eval: Evaluator<S>, st: S, s: Bytes) returns (ms: Members)
    requires Spans(step, eval) && MemberLoop(step, st, s).Some?
    ensures ms.Member? && GoodMembers(ms) && s == PrintMembers(ms) + MemberLoop(step, st, s).value.1
    ensures FoldMembers(eval, st, ms) == Some(MemberLoop(step, st, s).value.0)
    decreases |s|
  {
    hide SkipWs, Print, PrintMembers, Good, ParseKey, IsUtf8, PrintString, Meaning;
    var before, key, afterKey, beforeValue := KeySpan(s);
    var k := ParseKey(s).value;
    KeyEndsBeforeValue(s);
    assert SpansOn(step, eval, st, k.0, k.1);
    var after := step(st, k.0, k.1).value;
    var v: Json :| ReadsAs(eval, st, k.0, v, k.1, after);
    var w := WsSpan(after.1);
    var t := SkipWs(after.1);
    assert t == [t[0]] + t[1..];
    var more := NoMembers;
    if t[0] == COMMA { more := LoopSpan(step, eval, after.0, t[1..]); }
    ms := Member(before, key, afterKey, beforeValue, v, w, more);
    var rest := MemberLoop(step, st, s).value.1;
    assert t == MemberTail(ms) + rest;
    assert beforeValue + [] == beforeValue && [] + Print(v) == Print(v);
    MembersJoin(ms, beforeValue, [], s, rest);
  }

  /** What the object loop reads is one object. */
  lemma ObjectSpan<S(!new)>(step: Handler<S>, eval: Evaluator<S>, st: S, s: Bytes) returns (v: Json)
    requires Spans(step, eval) && ObjectLoop(step, st, s).Some?
    ensures Good(v) && s == Print(v) + ObjectLoop(step, st, s).value.1
    ensures FoldObject(eval, st, v) == Some(ObjectLoop(step, st, s).value.0)
  {
    hide SkipWs, PrintMembers, PrintString, IsUtf8, Meaning, MemberLoop;
    var pad := WsSpan(s[1..]);
    var inner := SkipWs(s[1..]);
    var ms := LoopSpan(step, eval, st, inner);
    PadMembers(pad, ms);
    v := Obj([], ms.(before := pad + ms.before));
    assert s == [LBRACE] + s[1..];
  }

  // ---------- single values ----------

  lemma TextSpan(s: Bytes) returns (v: Json)
    requires ParseString(s).Some?
    ensures Good(v) && s == Print(v) + ParseString(s).value.1 && EvalText(v) == Some(ParseString(s).value.0)
  {
    hide ParseString, PrintString, IsUtf8, Meaning;
    var ps := StringIsParts(s);
    v := Str(ps);
  }

  lemma DigitsFromSpan(n: nat, s: Bytes) returns (d: Bytes)
    requires DigitsFrom(n, s).Some?
    ensures AllDigits(d) && s == d + DigitsFrom(n, s).value.1 && DigitsValue(n, d) == DigitsFrom(n, s).value.0
    ensures s != [] && IsDigit(s[0]) ==> d != []
    ensures n < TWO32 ==> DigitsFrom(n, s).value.0 < TWO32
    decreases |s|
  {
    if s == [] || !IsDigit(s[0]) {
      d := [];
    } else {
      var more := DigitsFromSpan(n * 10 + (s[0] - 0x30), s[1..]);
      d := [s[0]] + more;
      assert s == [s[0]] + s[1..] && d[1..] == more;
    }
  }

  lemma UintSpan(s: Bytes) returns (v: Json)
    requires ParseU32(s).Some?
    ensures Good(v) && s == Print(v) + ParseU32(s).value.1
    ensures ParseU32(s).value.0 < TWO32
    ensures forall bound :: ParseU32(s).value.0 < bound ==> EvalUint(v, bound) == Some(ParseU32(s).value.0)
  {
    hide DigitsFrom, DigitsValue;
    var d := DigitsFromSpan(0, s);
    v := Num(Number(false, d, None, None));
    assert Print(v) == d;
  }

  /** A skipped value without leading whitespace is the text of one value. */
  lemma SkipSpan(s: Bytes) returns (v: Json)
    requires SkipValue(s).Some? && AtValue(s)
    ensures Good(v) && s == Print(v) + SkipValue(s).value
  {
    hide SkipValue, Print, Good;
    SliceIsValue(s);
    v :| Good(v) && Slice(s).value.0 == Print(v);
  }

  // ---------- headers ----------

  lemma HeaderStepSpan(f: HeaderFields, key: Bytes, s: Bytes)
    ensures SpansOn(HeaderStep, HeaderEval, f, key, s)
  {
    hide ParseString, SkipValue, Print, Good, EvalText;
    if AtValue(s) && HeaderStep(f, key, s).Some? {
      var after := HeaderStep(f, key, s).value;
      if key == K || key == V {
        var v := TextSpan(s);
        assert ReadsAs(HeaderEval, f, key, v, s, after);
      } else {
        var v := SkipSpan(s);
        assert ReadsAs(HeaderEval, f, key, v, s, after);
      }
    }
  }

  lemma HeaderSpan(s: Bytes) returns (w: Bytes, v: Json)
    requires ParseHeader(s).Some?
    ensures AllWs(w) && Good(v) && s == w + Print(v) + ParseHeader(s).value.1
    ensures EvalHeader(v) == Some(ParseHeader(s).value.0)
  {
    hide ObjectLoop, FoldObject, SkipWs, Print, Good;
    forall f, key, x ensures SpansOn(HeaderStep, HeaderEval, f, key, x) { HeaderStepSpan(f, key, x); }
    w := WsSpan(s);
    v := ObjectSpan(HeaderStep, HeaderEval, NO_HEADER, SkipWs(s));
    assert w + Print(v) + ParseHeader(s).value.1 == w + (Print(v) + ParseHeader(s).value.1);
  }

  lemma HeaderLoopSpan(out: seq<Header>, s: Bytes) returns (items: Items)
    requires HeaderLoop(out, s).Some?
    ensures items.Item? && GoodItems(items) && s == PrintItems(items) + HeaderLoop(out, s).value.1
    ensures EvalHeaderItems(out, items) == Some(HeaderLoop(out, s).value.0)
    decreases |s|
  {
    hide ParseHeader, EvalHeader, SkipWs, Print, PrintItems, Good;
    var w, v := HeaderSpan(s);
    var h := ParseHeader(s).value;
    var after := WsSpan(h.1);
    var t := SkipWs(h.1);
    assert t == [t[0]] + t[1..];
    var more := NoItems;
    if t[0] == COMMA { more := HeaderLoopSpan(out + [h.0], t[1..]); }
    items := Item(w, v, after, more);
    var rest := HeaderLoop(out, s).value.1;
    assert t == ItemTail(items) + rest;
    assert [] + (w + Print(v) + h.1) == s && [] + w == w;
    ItemsJoin(items, [], w, s, rest);
  }

  lemma HeadersSpan(s: Bytes) returns (v: Json)
    requires ParseHeaders(s).Some?
    ensures Good(v) && s == Print(v) + ParseHeaders(s).value.1
    ensures EvalHeaders(v) == Some(ParseHeaders(s).value.0)
  {
    hide SkipWs, HeaderLoop, EvalHeader, PrintItems;
    assert s == [LBRACKET] + s[1..];
    var pad := WsSpan(s[1..]);
    var t := SkipWs(s[1..]);
    if Starts(t, RBRACKET) {
      v := Arr(pad, NoItems);
      assert t == [RBRACKET] + t[1..];
    } else {
      var items := HeaderLoopSpan([], t);
      PadItems(pad, items);
      v := Arr([], items.(before := pad + items.before));
    }
  }

  // ---------- the body ----------

  lemma PayloadStepSpan(f: PayloadFields, key: Bytes, s: Bytes)
    ensures SpansOn(PayloadStep, PayloadEval, f, key, s)
  {
    hide ParseString, ParseU32, SkipValue, Print, Good, EvalText, EvalUint;
    if AtValue(s) && PayloadStep(f, key, s).Some? {
      var after := PayloadStep(f, key, s).value;
      if key == BYTES_LEN {
        var v := UintSpan(s);
        assert ReadsAs(PayloadEval, f, key, v, s, after);
      } else if key == BASE64 || key == TEXT {
        var v := TextSpan(s);
        assert ReadsAs(PayloadEval, f, key, v, s, after);
      } else {
        var v := SkipSpan(s);
        assert ReadsAs(PayloadEval, f, key, v, s, after);
      }
    }
  }

  lemma PayloadSpan(s: Bytes) returns (v: Json)
    requires ParsePayload(s).Some?
    ensures Good(v) && s == Print(v) + ParsePayload(s).value.1
    ensures EvalPayload(v) == Some(ParsePayload(s).value.0)
  {
    hide ObjectLoop, FoldObject, FinishPayload, Print, Good;
    forall f, key, x ensures SpansOn(PayloadStep, PayloadEval, f, key, x) { PayloadStepSpan(f, key, x); }
    v := ObjectSpan(PayloadStep, PayloadEval, NO_PAYLOAD, s);
  }

  // ---------- the response ----------

  lemma ResponseStepSpan(f: Fields, key: Bytes, s: Bytes)
    ensures SpansOn(ResponseStep, ResponseEval, f, key, s)
  {
    hide ParseString, ParseU32, SkipValue, ParseHeaders, ParsePayload;
    hide Print, Good, EvalText, EvalUint, EvalHeaders, EvalPayload;
    if AtValue(s) && ResponseStep(f, key, s).Some? {
      var after := ResponseStep(f, key, s).value;
      var v: Json;
      if key == SCHEMA_VERSION || key == REQUEST_ID {
        v := TextSpan(s);
      } else if key == STATUS {
        v := UintSpan(s);
      } else if key == HEADERS {
        v := HeadersSpan(s);
      } else if key == BODY {
        v := PayloadSpan(s);
      } else {
        v := SkipSpan(s);
      }
      assert ReadsAs(ResponseEval, f, key, v, s, after);
    }
  }

  /** The text starts with whitespace and one well-formed value that means this response. */
  ghost predicate IsResponseText(s: Bytes, r: Response) {
    exists w: Bytes, v: Json, rest: Bytes ::
      AllWs(w) && Good(v) && s == w + Print(v) + rest && EvalResponse(v) == Some(r)
  }

  lemma ResponseSpan(s: Bytes) returns (w: Bytes, v: Json, rest: Bytes)
    requires ParseResponse(s).Some?
    ensures AllWs(w) && Good(v) && s == w + Print(v) + rest && EvalResponse(v) == ParseResponse(s)
  {
    hide ObjectLoop, FoldObject, FinishResponse, SkipWs, Print, Good;
    forall f, key, x ensures SpansOn(ResponseStep, ResponseEval, f, key, x) { ResponseStepSpan(f, key, x); }
    w := WsSpan(s);
    v := ObjectSpan(ResponseStep, ResponseEval, NO_FIELDS, SkipWs(s));
    rest := ObjectLoop(ResponseStep, NO_FIELDS, SkipWs(s)).value.1;
    assert w + Print(v) + rest == w + (Print(v) + rest);
  }

  /** The parser gives a response exactly on the texts that start with a document of that response. */
  lemma ResponseAcceptedIff(s: Bytes, r: Response)
    ensures ParseResponse(s) == Some(r) <==> IsResponseText(s, r)
  {
    hide ParseResponse, EvalResponse, Print, Good;
    if ParseResponse(s) == Some(r) {
      var w, v, rest := ResponseSpan(s);
    }
    if IsResponseText(s, r) {
      var w, v, rest :| AllWs(w) && Good(v) && s == w + Print(v) + rest && EvalResponse(v) == Some(r);
      ResponseParsed(w, v, rest);
    }
  }

  // ---------- the backend response ----------

  lemma BackendStepSpan(f: BackendFields, key: Bytes, s: Bytes)
    ensures SpansOn(BackendStep, BackendEval, f, key, s)
  {
    hide ParseString, SkipValue, Print, Good, EvalText;
    if AtValue(s) && BackendStep(f, key, s).Some? {
      var after := BackendStep(f, key, s).value;
      var v: Json;
      if key == SCHEMA_VERSION {
        v := TextSpan(s);
      } else {
        v := SkipSpan(s);
        assert s[..|s| - |SkipValue(s).value|] == Print(v);
      }
      assert ReadsAs(BackendEval, f, key, v, s, after);
    }
  }

  /** The text starts with whitespace and one well-formed value that means this response and state. */
  ghost predicate IsBackendText(s: Bytes, b: Backend) {
    exists w: Bytes, v: Json, rest: Bytes ::
      AllWs(w) && Good(v) && s == w + Print(v) + rest && EvalBackend(v) == Some(b)
  }

  lemma BackendSpan(s: Bytes) returns (w: Bytes, v: Json, rest: Bytes)
    requires ParseBackend(s).Some?
    ensures AllWs(w) && Good(v) && s == w + Print(v) + rest && EvalBackend(v) == ParseBackend(s)
  {
    hide ObjectLoop, FoldObject, FinishBackend, SkipWs, Print, Good;
    forall f, key, x ensures SpansOn(BackendStep, BackendEval, f, key, x) { BackendStepSpan(f, key, x); }
    w := WsSpan(s);
    v := ObjectSpan(BackendStep, BackendEval, NO_BACKEND, SkipWs(s));
    rest := ObjectLoop(BackendStep, NO_BACKEND, SkipWs(s)).value.1;
    assert w + Print(v) + rest == w + (Print(v) + rest);
  }

  lemma BackendAcceptedIff(s: Bytes, b: Backend)
    ensures ParseBackend(s) == Some(b) <==> IsBackendText(s, b)
  {
    hide ParseBackend, EvalBackend, Print, Good;
    if ParseBackend(s) == Some(b) {
      var w, v, rest := BackendSpan(s);
    }
    if IsBackendText(s, b) {
      var w, v, rest :| AllWs(w) && Good(v) && s == w + Print(v) + rest && EvalBackend(v) == Some(b);
      BackendParsed(w, v, rest);
    }
  }
}
