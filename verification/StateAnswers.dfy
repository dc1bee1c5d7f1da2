/**
 Response documents: every response and state, printed as a document, are read back, so
 a reducer that returns its state has something to answer with.
 */
module StateAnswers {
  import opened Words
  import opened JsonText
  import opened JsonScan
  import opened JsonMembers
  import opened Envelopes
  import opened StateDoc
  import opened StateTurns
  import Base64

  predicate Printable(p: Response) {
    IsUtf8(p.id) && HeadersUtf8(p.headers) && p.status < 0x1_0000 && |p.body| < TWO32
  }

  function ResponseTree(p: Response): Json {
    Obj([], Field(SCHEMA_VERSION, StrOf(RESPONSE_SCHEMA), IdMembers(p)))
  }

  function LastMembers(p: Response): Members {
    Field(HEADERS, HeadersTree(p.headers), Field(BODY, PayloadTree(p.body), NoMembers))
  }

  function PayloadTree(body: Bytes): Json { BodyTree(|body|, Base64.Encode(body)) }

  function AnswerTree(p: Response, t: Json): Json {
    Obj([], Field(SCHEMA_VERSION, StrOf(BACKEND_RESPONSE_SCHEMA), StateMembers(p, t)))
  }

  lemma ResponseNamesArePlain()
    ensures Plain(SCHEMA_VERSION) && Plain(REQUEST_ID) && Plain(STATUS) && Plain(HEADERS) && Plain(BODY)
  {
    hide Plain;
    PlainAscii("schema_version");
    PlainAscii("request_id");
    PlainAscii("status");
    PlainAscii("headers");
    PlainAscii("body");
  }

  lemma ResponseSchemaIsPlain()
    ensures Plain(RESPONSE_SCHEMA)
  {
    hide Plain;
    PlainAscii("x07.http.response.envelope@0.1.0");
  }

  /** One member in front: well-formed, and folded before the rest. */
  lemma FieldFolds<S>(eval: Evaluator<S>, st: S, name: Bytes, v: Json, rest: Members)
    requires Plain(name) && Good(v) && GoodMembers(rest)
    ensures GoodMembers(Field(name, v, rest))
    ensures FoldMembers(eval, st, Field(name, v, rest))
         == var e := eval(st, name, v); if e.None? then None else FoldMembers(eval, e.value, rest)
  {
    hide Plain, Good, Meaning, PartsOf;
    FieldPrints(name, v, rest);
  }

  lemma PayloadMeans(body: Bytes)
    requires |body| < TWO32
    ensures Good(PayloadTree(body)) && EvalPayload(PayloadTree(body)) == Some(body)
  {
    hide BodyTree, EvalPayload, Base64.Encode, Base64.StdDecode, IsUtf8, Good, Print;
    var b64 := Base64.Encode(body);
    EncodedIsPlain(body);
    PlainIsUtf8(b64);
    BodyTreePrints(|body|, b64);
    Base64.StdDecodeIff(b64, body);
  }

  lemma StatusMeans(n: nat)
    requires n < 0x1_0000
    ensures Good(DecimalTree(n)) && EvalUint(DecimalTree(n), 0x1_0000) == Some(n)
  {
    DecimalTreeGood(n);
  }

  lemma LastMembersMean(p: Response, f: Fields)
    requires Printable(p)
    ensures GoodMembers(LastMembers(p))
    ensures FoldMembers(ResponseEval, f, LastMembers(p)) == Some(f.(headers := Some(p.headers), body := Some(p.body)))
  {
    hide HeadersTree, PayloadTree, EvalHeaders, EvalPayload, EvalText, EvalUint, Good, IsUtf8, HeadersUtf8, Plain;
    ResponseNamesArePlain();
    HeadersTreePrints(p.headers);
    PayloadMeans(p.body);
    var last := Field(BODY, PayloadTree(p.body), NoMembers);
    FieldFolds(ResponseEval, f.(headers := Some(p.headers)), BODY, PayloadTree(p.body), NoMembers);
    FieldFolds(ResponseEval, f, HEADERS, HeadersTree(p.headers), last);
    assert |HEADERS| == 7 && |BODY| == 4 && |STATUS| == 6;
  }

  function IdMembers(p: Response): Members {
    Field(REQUEST_ID, StrOf(p.id), Field(STATUS, DecimalTree(p.status), LastMembers(p)))
  }

  lemma IdMembersMean(p: Response, f: Fields)
    requires Printable(p)
    ensures GoodMembers(IdMembers(p))
    ensures FoldMembers(ResponseEval, f, IdMembers(p))
         == Some(f.(id := Some(p.id), status := Some(p.status), headers := Some(p.headers), body := Some(p.body)))
  {
    hide LastMembers, StrOf, DecimalTree, EvalText, EvalUint, Good, IsUtf8, HeadersUtf8, Plain, FoldMembers, GoodMembers, Field;
    ResponseNamesArePlain();
    StrOfGood(p.id);
    StatusMeans(p.status);
    var f2 := f.(id := Some(p.id));
    var third := Field(STATUS, DecimalTree(p.status), LastMembers(p));
    LastMembersMean(p, f2.(status := Some(p.status)));
    FieldFolds(ResponseEval, f2, STATUS, DecimalTree(p.status), LastMembers(p));
    FieldFolds(ResponseEval, f, REQUEST_ID, StrOf(p.id), third);
    assert |SCHEMA_VERSION| == 14 && |REQUEST_ID| == 10 && |STATUS| == 6;
  }

  /** Every printable response is what its document means. */
  lemma ResponseMeans(p: Response)
    requires Printable(p)
    ensures Good(ResponseTree(p)) && EvalResponse(ResponseTree(p)) == Some(p)
  {
    hide IdMembers, StrOf, EvalText, Good, IsUtf8, Plain, FoldMembers, Printable, GoodMembers, Ascii, PrintMembers, Print;
    ResponseNamesArePlain();
    ResponseSchemaIsPlain();
    PlainIsUtf8(RESPONSE_SCHEMA);
    StrOfGood(RESPONSE_SCHEMA);
    IdMembersMean(p, NO_FIELDS.(schema := Some(RESPONSE_SCHEMA)));
    FieldFolds(ResponseEval, NO_FIELDS, SCHEMA_VERSION, StrOf(RESPONSE_SCHEMA), IdMembers(p));
    ObjPrints(Field(SCHEMA_VERSION, StrOf(RESPONSE_SCHEMA), IdMembers(p)));
  }

  /** A printed response and state are read back, so the document answers with that state. */
  lemma AnswerIsRead(p: Response, t: Json)
    requires Printable(p) && Good(t)
    ensures Good(AnswerTree(p, t)) && ParseBackend(Print(AnswerTree(p, t))) == Some(Backend(p, Print(t)))
    ensures Answers(Print(AnswerTree(p, t)), p.id, t)
  {
    hide ParseBackend, Print, Good, ResponseTree, AnswerTree;
    AnswerMeans(p, t);
    var doc := AnswerTree(p, t);
    BackendParsed([], doc, []);
    assert [] + Print(doc) + [] == Print(doc);
  }

  /** The last two members of an answer, and what they leave in the fields. */
  function StateMembers(p: Response, t: Json): Members { Field(RESPONSE, ResponseTree(p), Field(STATE, t, NoMembers)) }

  lemma StateMembersMean(p: Response, t: Json, f: BackendFields)
    requires Good(ResponseTree(p)) && Good(t)
    ensures GoodMembers(StateMembers(p, t))
    ensures FoldMembers(BackendEval, f, StateMembers(p, t))
         == Some(f.(response := Some(Print(ResponseTree(p))), state := Some(Print(t))))
  {
    hide ResponseTree, Good, Print, Plain, Ascii, EvalText;
    BackendNamesArePlain();
    FieldFolds(BackendEval, f.(response := Some(Print(ResponseTree(p)))), STATE, t, NoMembers);
    FieldFolds(BackendEval, f, RESPONSE, ResponseTree(p), Field(STATE, t, NoMembers));
    assert |SCHEMA_VERSION| == 14 && |RESPONSE| == 8 && |STATE| == 5;
  }

  lemma AnswerMeans(p: Response, t: Json)
    requires Printable(p) && Good(t)
    ensures Good(AnswerTree(p, t)) && EvalBackend(AnswerTree(p, t)) == Some(Backend(p, Print(t)))
  {
    hide ResponseTree, StateMembers, StrOf, EvalText, Good, Print, PrintMembers, IsUtf8, Plain, Printable, ParseResponse,
      EvalResponse, FoldMembers, GoodMembers, Ascii;
    BackendNamesArePlain();
    BackendSchemasArePlain();
    PlainIsUtf8(BACKEND_RESPONSE_SCHEMA);
    StrOfGood(BACKEND_RESPONSE_SCHEMA);
    ResponseMeans(p);
    ResponseParsed([], ResponseTree(p), []);
    assert [] + Print(ResponseTree(p)) + [] == Print(ResponseTree(p));
    StateMembersMean(p, t, NO_BACKEND.(schema := Some(BACKEND_RESPONSE_SCHEMA)));
    FieldFolds(BackendEval, NO_BACKEND, SCHEMA_VERSION, StrOf(BACKEND_RESPONSE_SCHEMA), StateMembers(p, t));
    ObjPrints(Field(SCHEMA_VERSION, StrOf(BACKEND_RESPONSE_SCHEMA), StateMembers(p, t)));
  }
}
