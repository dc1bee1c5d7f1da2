/**
 The backend response and the life of a state document over many requests.
 */
module StateTurns {
  import opened Words
  import opened JsonText
  import opened JsonScan
  import opened JsonMembers
  import opened Envelopes
  import opened StateDoc
  import Base64

  datatype BackendFields = BackendFields(schema: Option<Bytes>, response: Option<Bytes>, state: Option<Bytes>)
  datatype Backend = Backend(response: Response, state: Bytes)

  const NO_BACKEND := BackendFields(None, None, None)

  /** The raw bytes a skipped value occupies. */
  function Slice(s: Bytes): Option<(Bytes, Bytes)> {
    var r := SkipValue(s);
    if r.None? then None else Some((s[..|s| - |r.value|], r.value))
  }

  function BackendStep(f: BackendFields, key: Bytes, s: Bytes): Option<(BackendFields, Bytes)> {
    if key == SCHEMA_VERSION then
      var r := ParseString(s);
      if r.None? then None else Some((f.(schema := Some(r.value.0)), r.value.1))
    else if key == RESPONSE || key == STATE then
      var r := Slice(s);
      if r.None? then None
      else Some((if key == RESPONSE then f.(response := Some(r.value.0)) else f.(state := Some(r.value.0)), r.value.1))
    else Skip(f, s)
  }

  function FinishBackend(f: BackendFields): Option<Backend> {
    if f.schema != Some(BACKEND_RESPONSE_SCHEMA) || f.response.None? || f.state.None? then None
    else
      var r := ParseResponse(f.response.value);
      if r.None? then None else Some(Backend(r.value, f.state.value))
  }

  /** `parse_backend_response`; None where it panics. */
  function ParseBackend(s: Bytes): Option<Backend> {
    var r := ObjectLoop(BackendStep, NO_BACKEND, SkipWs(s));
    if r.None? then None else FinishBackend(r.value.0)
  }

  // ---------- the state slice is one value ----------

  /** The exact text of one well-formed value. */
  ghost predicate IsValueText(x: Bytes) { exists t: Json :: Good(t) && x == Print(t) }

  lemma LeadingWs(w: Bytes, s: Bytes)
    requires AllWs(w) && w != []
    ensures IsWs((w + s)[0])
  {
    assert w[0] in w;
  }

  lemma SliceIsValue(s: Bytes)
    requires Slice(s).Some? && (s == [] || !IsWs(s[0]))
    ensures IsValueText(Slice(s).value.0) && s == Slice(s).value.0 + Slice(s).value.1
  {
    hide SkipValue, Print, Good;
    var w, t := ValueSpan(s);
    var rest := SkipValue(s).value;
    assert s == w + (Print(t) + rest);
    if w != [] { LeadingWs(w, Print(t) + SkipValue(s).value); }
    assert w + Print(t) == Print(t);
    assert s == Print(t) + rest;
    assert s[..|s| - |rest|] == Print(t);
  }

  ghost predicate StateOk(f: BackendFields) { f.state.Some? ==> IsValueText(f.state.value) }

  lemma {:induction false} LoopKeepsState(f: BackendFields, s: Bytes)
    requires StateOk(f) && MemberLoop(BackendStep, f, s).Some?
    ensures StateOk(MemberLoop(BackendStep, f, s).value.0)
    decreases |s|
  {
    hide ParseString, SkipWs, Slice, SkipValue, IsValueText;
    var k := ParseKey(s).value;
    var v := BackendStep(f, k.0, k.1).value;
    KeyEndsBeforeValue(s);
    if k.0 == STATE && k.0 != SCHEMA_VERSION && k.0 != RESPONSE { SliceIsValue(k.1); }
    var t := SkipWs(v.1);
    if Starts(t, COMMA) { LoopKeepsState(v.0, t[1..]); }
  }

  lemma KeyEndsBeforeValue(s: Bytes)
    requires ParseKey(s).Some?
    ensures ParseKey(s).value.1 == [] || !IsWs(ParseKey(s).value.1[0])
  {
  }

  /** Whatever state a parsed response carries is exactly one JSON value. */
  lemma StateIsOneValue(s: Bytes)
    requires ParseBackend(s).Some?
    ensures IsValueText(ParseBackend(s).value.state)
  {
    hide MemberLoop, SkipWs, ParseResponse, IsValueText;
    var o := Expect(SkipWs(s), LBRACE).value;
    LoopKeepsState(NO_BACKEND, SkipWs(o));
  }

  /** Splicing that state into the next request gives one well-formed document. */
  lemma SpliceIsWellFormed(s: Bytes, r: Request)
    requires ParseBackend(s).Some? && RequestUtf8(r)
    ensures IsValueText(BackendRequest(r, ParseBackend(s).value.state))
    ensures SkipValue(BackendRequest(r, ParseBackend(s).value.state)) == Some([])
  {
    hide ParseBackend, BackendRequest, SkipValue, RequestUtf8, BackendTree, Good, Print;
    StateIsOneValue(s);
    var t :| Good(t) && ParseBackend(s).value.state == Print(t);
    BackendRequestPrints(r, t);
    var doc := BackendTree(r, t);
    ValueSkipped([], doc, []);
    assert [] + Print(doc) + [] == Print(doc);
  }

  // ---------- reading a response tree ----------

  function BackendEval(f: BackendFields, key: Bytes, v: Json): Option<BackendFields> {
    if key == SCHEMA_VERSION then
      var t := EvalText(v);
      if t.None? then None else Some(f.(schema := t))
    else if key == RESPONSE then Some(f.(response := Some(Print(v))))
    else if key == STATE then Some(f.(state := Some(Print(v))))
    else Some(f)
  }

  function EvalBackend(v: Json): Option<Backend> {
    var f := FoldObject(BackendEval, NO_BACKEND, v);
    if f.None? then None else FinishBackend(f.value)
  }

  lemma BackendAgrees()
    ensures Agrees(BackendStep, BackendEval)
  {
    hide ParseString, SkipValue, Print, Good, EvalText, Slice;
    forall f, key, v, rest ensures AgreesOn(BackendStep, BackendEval, f, key, v, rest) {
      if Good(v) && Delimits(rest) {
        TextAgrees(v, rest);
        SkipAgrees(f, v, rest);
        SliceOfPrint(v, rest);
      }
    }
  }

  lemma SliceOfPrint(v: Json, rest: Bytes)
    requires Good(v) && Delimits(rest)
    ensures Slice(Print(v) + rest) == Some((Print(v), rest))
  {
    hide Print, SkipValue, Good;
    ValueSkipped([], v, rest);
    assert [] + Print(v) + rest == Print(v) + rest;
  }

  lemma BackendParsed(w: Bytes, v: Json, rest: Bytes)
    requires AllWs(w) && Good(v)
    ensures ParseBackend(w + Print(v) + rest) == EvalBackend(v)
  {
    hide Print, ObjectLoop, FoldObject, FinishBackend, SkipWs;
    BackendAgrees();
    FirstByte(v);
    assert w + Print(v) + rest == w + (Print(v) + rest);
    WsSkipped(w, Print(v) + rest);
    ObjectAgrees(BackendStep, BackendEval, NO_BACKEND, v, rest);
  }

  // ---------- turns ----------

  /** The reducer behind the adapter: request bytes to response bytes. */
  type Reducer = Bytes -> Bytes

  /** The state document of an incoming request: the decoded header, or `null`; None where decoding panics. */
  function IncomingState(header: Option<Bytes>): Option<Bytes> {
    if header.None? then Some(NULL_TEXT) else Base64.StdDecode(header.value)
  }

  /** One request: the header sent back carries the next state. None where the adapter panics. */
  function Turn(f: Reducer, r: Request, header: Option<Bytes>): Option<Bytes> {
    var state := IncomingState(header);
    if state.None? then None
    else
      var b := ParseBackend(f(BackendRequest(r, state.value)));
      if b.None? || b.value.response.id != r.id then None else Some(Base64.Encode(b.value.state))
  }

  /** The header after a sequence of requests, each sending back the header it got. */
  function Turns(f: Reducer, rs: seq<Request>, header: Option<Bytes>): Option<Option<Bytes>>
    decreases |rs|
  {
    if rs == [] then Some(header)
    else
      var h := Turn(f, rs[0], header);
      if h.None? then None else Turns(f, rs[1..], Some(h.value))
  }

  /** The bytes are a response document that answers request id and carries state t. */
  ghost predicate Answers(bytes: Bytes, id: Bytes, t: Json) {
    exists w: Bytes, doc: Json, rest: Bytes ::
      && AllWs(w) && Good(doc) && bytes == w + Print(doc) + rest
      && EvalBackend(doc).Some? && EvalBackend(doc).value.response.id == id && EvalBackend(doc).value.state == Print(t)
  }

  /** The reducer answers this request with the state it was given. */
  ghost predicate ReturnsState(f: Reducer, r: Request, t: Json) {
    Answers(f(BackendRequest(r, Print(t))), r.id, t)
  }

  lemma TurnKeepsState(f: Reducer, r: Request, header: Option<Bytes>, t: Json)
    requires ReturnsState(f, r, t) && IncomingState(header) == Some(Print(t))
    ensures Turn(f, r, header) == Some(Base64.Encode(Print(t)))
    ensures IncomingState(Turn(f, r, header)) == Some(Print(t))
  {
    hide ParseBackend, BackendRequest, Print, Good, EvalBackend, Base64.Encode, Base64.StdDecode, Answers;
    AnswerParsed(f(BackendRequest(r, Print(t))), r.id, t);
    Base64.StdDecodeIff(Base64.Encode(Print(t)), Print(t));
  }

  lemma AnswerParsed(bytes: Bytes, id: Bytes, t: Json)
    requires Answers(bytes, id, t)
    ensures ParseBackend(bytes).Some?
    ensures ParseBackend(bytes).value.response.id == id && ParseBackend(bytes).value.state == Print(t)
  {
    hide ParseBackend, Print, Good, EvalBackend;
    var w, doc, rest :| AllWs(w) && Good(doc) && bytes == w + Print(doc) + rest
      && EvalBackend(doc).Some? && EvalBackend(doc).value.response.id == id && EvalBackend(doc).value.state == Print(t);
    BackendParsed(w, doc, rest);
  }

  /** Over any number of requests whose answers carry the state along, it comes back byte for byte. */
  lemma {:induction false} StateSurvives(f: Reducer, rs: seq<Request>, header: Option<Bytes>, t: Json)
    requires forall r :: r in rs ==> ReturnsState(f, r, t)
    requires IncomingState(header) == Some(Print(t))
    ensures Turns(f, rs, header).Some? && IncomingState(Turns(f, rs, header).value) == Some(Print(t))
    decreases |rs|
  {
    hide Turn, Print, Good, ReturnsState, IncomingState;
    if rs != [] {
      TurnKeepsState(f, rs[0], header, t);
      StateSurvives(f, rs[1..], Some(Turn(f, rs[0], header).value), t);
    }
  }
}
