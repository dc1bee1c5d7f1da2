/**
 Envelopes member by member, under the names they travel with: when a header, a body or
 a backend response is read, and what the printed requests say.
 */
module EnvelopeFields {
  import opened Words
  import opened JsonText
  import opened JsonScan
  import opened JsonMembers
  import opened Envelopes
  import opened EnvelopeOrder
  import opened StateDoc
  import opened StateTurns
  import Base64

  // ---------- what is read ----------

  /** A header is read exactly when its two members are there and are its texts. */
  lemma HeaderIff(v: Json, h: Header)
    requires Good(v) && v.Obj? && Once(HEADER_NAMES, v.members)
    ensures EvalHeader(v) == Some(h) <==>
      && Holds(Find(v.members, Ascii("k")), EvalText, h.0)
      && Holds(Find(v.members, Ascii("v")), EvalText, h.1)
  {
    hide EvalText, EvalHeader, Find, Once;
    HeaderFromKnown(v);
  }

  /** A list of headers is read exactly when it holds one readable header object for each, in order. */
  lemma {:induction false} HeaderListIff(items: Items, hs: seq<Header>)
    ensures EvalHeaderItems([], items) == Some(hs) <==> AreHeaders(items, hs)
  {
    hide EvalHeaderItems, AreHeaders;
    HeadersBehind([], items, hs);
    assert [] + hs == hs;
  }

  ghost predicate AreHeaders(items: Items, hs: seq<Header>) {
    if items.NoItems? then hs == []
    else hs != [] && EvalHeader(items.v) == Some(hs[0]) && AreHeaders(items.rest, hs[1..])
  }

  lemma {:induction false} HeadersBehind(out: seq<Header>, items: Items, hs: seq<Header>)
    ensures EvalHeaderItems(out, items) == Some(out + hs) <==> AreHeaders(items, hs)
    ensures EvalHeaderItems(out, items).Some? ==> out <= EvalHeaderItems(out, items).value
    decreases items
  {
    hide EvalHeader;
    if items.Item? {
      var h := EvalHeader(items.v);
      if h.Some? {
        var more := out + [h.value];
        HeadersBehind(more, items.rest, if hs == [] then [] else hs[1..]);
        if hs != [] && hs[0] == h.value { assert more + hs[1..] == out + hs; }
        assert EvalHeaderItems(more, items.rest) == Some(out + hs) ==> hs != [] && (out + hs)[|out|] == h.value;
      }
    } else {
      assert hs == [] ==> out + hs == out;
    }
  }

  /**
   A body is read exactly when it states the length of its bytes and spells them: in base64 if that member
   is there, else as text, else as nothing. Both spellings must be texts where they are there.
   */
  lemma BodyIff(v: Json, bytes: Bytes)
    requires Good(v) && v.Obj? && Once(PAYLOAD_NAMES, v.members)
    ensures EvalPayload(v) == Some(bytes) <==>
      var b64, text := Find(v.members, Ascii("base64")), Find(v.members, Ascii("text"));
      && Holds<nat>(Find(v.members, Ascii("bytes_len")), U32, |bytes|)
      && (b64.Some? ==> Holds(b64, EvalText, Base64.Encode(bytes)))
      && (text.Some? ==> EvalText(text.value).Some?)
      && (b64.None? && text.Some? ==> Holds(text, EvalText, bytes))
      && (b64.None? && text.None? ==> bytes == [])
  {
    hide EvalUint, Meaning, EvalPayload, Find, Once, Base64.Encode, Base64.StdDecode;
    PayloadFromKnown(v);
    var len, b64, text := Find(v.members, BYTES_LEN), Find(v.members, BASE64), Find(v.members, TEXT);
    if b64.Some? && EvalText(b64.value).Some? { Base64.StdDecodeIff(EvalText(b64.value).value, bytes); }
  }

  const BACKEND_NAMES: set<Bytes> := {SCHEMA_VERSION, RESPONSE, STATE}

  function SomePrint(v: Json): Option<Bytes> { Some(Print(v)) }

  function BackendSlots(f: BackendFields, schema: Option<Json>, response: Option<Json>, state: Option<Json>)
    : Option<BackendFields>
  {
    var a := Read(schema, EvalText, f.schema);
    var b, c := Read(response, SomePrint, f.response), Read(state, SomePrint, f.state);
    if a.None? || b.None? || c.None? then None else Some(BackendFields(a.value, b.value, c.value))
  }

  lemma BackendNamesDiffer()
    ensures |SCHEMA_VERSION| == 14 && |RESPONSE| == 8 && |STATE| == 5
  {
  }

  lemma {:induction false} BackendFold(f: BackendFields, ms: Members)
    requires GoodMembers(ms) && Once(BACKEND_NAMES, ms)
    ensures FoldMembers(BackendEval, f, ms)
         == BackendSlots(f, Find(ms, SCHEMA_VERSION), Find(ms, RESPONSE), Find(ms, STATE))
    decreases ms
  {
    hide Meaning, IsUtf8, EvalText, Good, Print;
    BackendNamesDiffer();
    if ms.Member? {
      var e := BackendEval(f, Meaning(ms.key), ms.v);
      if e.Some? { BackendFold(e.value, ms.rest); }
    }
  }

  /** A backend response is read exactly when its three members are there: its schema, a readable response, and a state. */
  lemma BackendIff(t: Json, b: Backend)
    requires Good(t) && t.Obj? && Once(BACKEND_NAMES, t.members)
    ensures EvalBackend(t) == Some(b) <==>
      && Holds(Find(t.members, Ascii("schema_version")), EvalText, Ascii("x07.app.backend.response@0.1.0"))
      && Holds(Find(t.members, Ascii("response")), EvalResponse, b.response)
      && Holds(Find(t.members, Ascii("state")), SomePrint, b.state)
  {
    ObjGood(t);
    hide EvalText, Find, Once, EvalResponse, ParseResponse, Print, Good, EvalBackend;
    BackendFromKnown(t);
    FindGood(t.members, RESPONSE);
    var r := Find(t.members, RESPONSE);
    if r.Some? {
      ResponseParsed([], r.value, []);
      assert [] + Print(r.value) + [] == Print(r.value);
    }
  }

  lemma BackendFromKnown(t: Json)
    requires Good(t) && t.Obj? && Once(BACKEND_NAMES, t.members)
    ensures
      var f := BackendSlots(NO_BACKEND, Find(t.members, SCHEMA_VERSION), Find(t.members, RESPONSE), Find(t.members, STATE));
      EvalBackend(t) == if f.None? then None else FinishBackend(f.value)
  {
    hide EvalText, Print, ParseResponse;
    BackendFold(NO_BACKEND, t.members);
  }

  // ---------- what is printed ----------

  lemma ObjGood(t: Json)
    requires Good(t) && t.Obj?
    ensures GoodMembers(t.members)
  {
  }

  lemma FindField(name: Bytes, v: Json, rest: Members, key: Bytes)
    requires GoodMembers(Field(name, v, rest))
    ensures GoodMembers(rest) && Find(Field(name, v, rest), key) == if name == key then Some(v) else Find(rest, key)
  {
    hide Meaning, PartsOf, IsUtf8, Good;
    PartsOfMean(name);
  }

  lemma RequestNamesDiffer()
    ensures |SCHEMA_VERSION| == 14 && |ID| == 2 && |METHOD| == 6 && |PATH| == 4 && |QUERY| == 5 && |HEADERS| == 7 && |BODY| == 4
    ensures PATH != BODY
  {
    assert PATH[0] == 'p' as int && BODY[0] == 'b' as int;
  }

  /** What a printed request says of its fields. */
  ghost predicate SaysRequest(ms: Members, r: Request)
    requires GoodMembers(ms)
  {
    && Holds(Find(ms, Ascii("schema_version")), EvalText, Ascii("x07.http.request.envelope@0.1.0"))
    && Holds(Find(ms, Ascii("id")), EvalText, r.id) && Holds(Find(ms, Ascii("method")), EvalText, r.verb)
    && Holds(Find(ms, Ascii("path")), EvalText, r.path) && Holds(Find(ms, Ascii("query")), EvalText, r.query)
    && Holds(Find(ms, Ascii("headers")), EvalHeaders, r.headers)
    && var body := Find(ms, Ascii("body"));
       body.Some? && body.value.Obj? && GoodMembers(body.value.members)
       && Find(body.value.members, Ascii("bytes_len")) == Some(DecimalTree(r.bodyLen))
       && Holds(Find(body.value.members, Ascii("base64")), EvalText, r.bodyB64)
  }

  /** The request text is the print of a value that has each field under its own name. */
  lemma RequestSays(r: Request) returns (t: Json)
    requires RequestUtf8(r)
    ensures Good(t) && t.Obj? && Print(t) == RequestText(r) && SaysRequest(t.members, r)
  {
    RequestPrints(r);
    t := RequestTree(r);
    FrontFields(r);
    TailFields(r);
    BodyFields(r);
    hide Find, RequestText, Print, EvalText, EvalHeaders, RequestTree, DecimalTree, TailMembers;
  }

  lemma FrontFind(r: Request, key: Bytes)
    requires GoodMembers(RequestTree(r).members)
    ensures GoodMembers(TailMembers(r))
    ensures Find(RequestTree(r).members, key)
         == if key == SCHEMA_VERSION then Some(StrOf(REQUEST_SCHEMA)) else if key == ID then Some(StrOf(r.id))
            else if key == METHOD then Some(StrOf(r.verb)) else if key == PATH then Some(StrOf(r.path))
            else Find(TailMembers(r), key)
  {
    hide Find, TailMembers, StrOf, GoodMembers, Field, Ascii;
    var path := Field(PATH, StrOf(r.path), TailMembers(r));
    var meth := Field(METHOD, StrOf(r.verb), path);
    var id := Field(ID, StrOf(r.id), meth);
    FindField(SCHEMA_VERSION, StrOf(REQUEST_SCHEMA), id, key);
    FindField(ID, StrOf(r.id), meth, key);
    FindField(METHOD, StrOf(r.verb), path, key);
    FindField(PATH, StrOf(r.path), TailMembers(r), key);
  }

  lemma FrontFields(r: Request)
    requires RequestUtf8(r) && Good(RequestTree(r))
    ensures
      var ms := RequestTree(r).members;
      && GoodMembers(ms)
      && Holds(Find(ms, SCHEMA_VERSION), EvalText, REQUEST_SCHEMA) && Holds(Find(ms, ID), EvalText, r.id)
      && Holds(Find(ms, METHOD), EvalText, r.verb) && Holds(Find(ms, PATH), EvalText, r.path)
      && GoodMembers(TailMembers(r))
      && forall key :: key !in {SCHEMA_VERSION, ID, METHOD, PATH} ==> Find(ms, key) == Find(TailMembers(r), key)
  {
    ObjGood(RequestTree(r));
    RequestSchemaIsPlain();
    PlainIsUtf8(REQUEST_SCHEMA);
    RequestNamesDiffer();
    hide Find, Print, EvalText, IsUtf8, TailMembers, StrOf, Plain, Good, GoodMembers, Field, Ascii, RequestTree;
    StrOfGood(REQUEST_SCHEMA);
    StrOfGood(r.id);
    StrOfGood(r.verb);
    StrOfGood(r.path);
    FrontFind(r, SCHEMA_VERSION);
    FrontFind(r, ID);
    FrontFind(r, METHOD);
    FrontFind(r, PATH);
    var ms := RequestTree(r).members;
    forall key | key !in {SCHEMA_VERSION, ID, METHOD, PATH} ensures Find(ms, key) == Find(TailMembers(r), key) {
      FrontFind(r, key);
    }
  }

  lemma TailFields(r: Request)
    requires RequestUtf8(r) && GoodMembers(TailMembers(r))
    ensures
      var ms := TailMembers(r);
      && Holds(Find(ms, QUERY), EvalText, r.query) && Holds(Find(ms, HEADERS), EvalHeaders, r.headers)
      && Find(ms, BODY) == Some(BodyTree(r.bodyLen, r.bodyB64))
      && {QUERY, HEADERS, BODY} !! {SCHEMA_VERSION, ID, METHOD, PATH}
  {
    RequestNamesDiffer();
    hide Find, Print, EvalText, EvalHeaders, IsUtf8, Meaning, PartsOf, StrOf, HeadersTree, BodyTree, Good, GoodMembers, Field;
    StrOfGood(r.query);
    HeadersTreePrints(r.headers);
    var body := Field(BODY, BodyTree(r.bodyLen, r.bodyB64), NoMembers);
    var headers := Field(HEADERS, HeadersTree(r.headers), body);
    FindField(QUERY, StrOf(r.query), headers, QUERY);
    FindField(QUERY, StrOf(r.query), headers, HEADERS);
    FindField(QUERY, StrOf(r.query), headers, BODY);
    FindField(HEADERS, HeadersTree(r.headers), body, HEADERS);
    FindField(HEADERS, HeadersTree(r.headers), body, BODY);
    FindField(BODY, BodyTree(r.bodyLen, r.bodyB64), NoMembers, BODY);
  }

  lemma BodyFields(r: Request)
    requires RequestUtf8(r)
    ensures
      var ms := BodyTree(r.bodyLen, r.bodyB64).members;
      && GoodMembers(ms) && Find(ms, BYTES_LEN) == Some(DecimalTree(r.bodyLen))
      && Holds(Find(ms, BASE64), EvalText, r.bodyB64)
  {
    PayloadNamesDiffer();
    BodyTreePrints(r.bodyLen, r.bodyB64);
    ObjGood(BodyTree(r.bodyLen, r.bodyB64));
    hide Find, Print, EvalText, IsUtf8, Meaning, PartsOf, StrOf, DecimalTree, FinishPayload, EvalPayload;
    hide Good, GoodMembers, Field;
    StrOfGood(r.bodyB64);
    var last := Field(BASE64, StrOf(r.bodyB64), NoMembers);
    FindField(BYTES_LEN, DecimalTree(r.bodyLen), last, BYTES_LEN);
    FindField(BYTES_LEN, DecimalTree(r.bodyLen), last, BASE64);
    FindField(BASE64, StrOf(r.bodyB64), NoMembers, BASE64);
  }

  ghost predicate SaysBackend(ms: Members, r: Request, state: Json)
    requires GoodMembers(ms)
  {
    && Holds(Find(ms, Ascii("schema_version")), EvalText, Ascii("x07.app.backend.request@0.1.0"))
    && Find(ms, Ascii("state")) == Some(state)
    && var request := Find(ms, Ascii("request"));
       request.Some? && Print(request.value) == RequestText(r)
  }

  /** The spliced document is the print of a value that has its schema, that request, and that state under their names. */
  lemma BackendRequestSays(r: Request, state: Json) returns (t: Json)
    requires RequestUtf8(r) && Good(state)
    ensures Good(t) && t.Obj? && Print(t) == BackendRequest(r, Print(state))
    ensures SaysBackend(t.members, r, state)
  {
    BackendRequestPrints(r, state);
    RequestPrints(r);
    BackendSchemasArePlain();
    PlainIsUtf8(BACKEND_REQUEST_SCHEMA);
    t := BackendTree(r, state);
    ObjGood(t);
    hide Find, Print, EvalText, IsUtf8, StrOf, RequestTree, RequestText, BackendRequest, BackendTree, Plain, Good, GoodMembers;
    StrOfGood(BACKEND_REQUEST_SCHEMA);
    BackendFind(r, state);
  }

  lemma BackendFind(r: Request, state: Json)
    requires GoodMembers(BackendTree(r, state).members)
    ensures
      var ms := BackendTree(r, state).members;
      && Find(ms, SCHEMA_VERSION) == Some(StrOf(BACKEND_REQUEST_SCHEMA))
      && Find(ms, REQUEST) == Some(RequestTree(r)) && Find(ms, STATE) == Some(state)
  {
    assert |SCHEMA_VERSION| == 14 && |REQUEST| == 7 && |STATE| == 5;
    hide Find, StrOf, RequestTree, GoodMembers, Field;
    var last := Field(STATE, state, NoMembers);
    var middle := Field(REQUEST, RequestTree(r), last);
    forall key | key in {SCHEMA_VERSION, REQUEST, STATE}
      ensures Find(BackendTree(r, state).members, key)
           == if key == SCHEMA_VERSION then Some(StrOf(BACKEND_REQUEST_SCHEMA))
              else if key == REQUEST then Some(RequestTree(r)) else Some(state)
    {
      FindField(SCHEMA_VERSION, StrOf(BACKEND_REQUEST_SCHEMA), middle, key);
      FindField(REQUEST, RequestTree(r), last, key);
      FindField(STATE, state, NoMembers, key);
    }
  }

  // ---------- one turn ----------

  /**
   A turn gives a header exactly when the incoming state decodes, the backend answers the spliced document
   with a readable response to this request, and then the header decodes to the state of that response.
   */
  lemma TurnIff(f: Reducer, r: Request, header: Option<Bytes>, next: Bytes)
    ensures Turn(f, r, header) == Some(next) <==>
      exists incoming: Bytes, b: Backend ::
        && (if header.None? then incoming == Ascii("null") else header.value == Base64.Encode(incoming))
        && ParseBackend(f(BackendRequest(r, incoming))) == Some(b) && b.response.id == r.id
        && next == Base64.Encode(b.state)
  {
    hide ParseBackend, BackendRequest, Base64.Encode, Base64.StdDecode;
    assert Ascii("null") == NULL_TEXT;
    if header.Some? {
      forall incoming ensures IncomingState(header) == Some(incoming) <==> header.value == Base64.Encode(incoming) {
        Base64.StdDecodeIff(header.value, incoming);
      }
    }
    if Turn(f, r, header) == Some(next) {
      var incoming := IncomingState(header).value;
      var b := ParseBackend(f(BackendRequest(r, incoming))).value;
      assert ParseBackend(f(BackendRequest(r, incoming))) == Some(b);
    }
  }
}
