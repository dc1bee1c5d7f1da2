/**
 What the adapters print, and how a state document travels: the printed request is
 one well-formed JSON value whose parts the parsers read back, and the raw state
 slice survives every turn byte for byte.
 */
module StateDoc {
  import opened Words
  import opened JsonText
  import opened JsonScan
  import opened JsonMembers
  import opened Envelopes
  import Base64

  // ---------- the printer ----------

  function Quoted(text: Bytes): Bytes { [QUOTE] + text + [QUOTE] }

  /** `"name":` */
  function Name(name: Bytes): Bytes { Quoted(name) + [COLON] }

  function HeaderText(h: Header): Bytes {
    [LBRACE] + Name(K) + JsonString(h.0) + [COMMA] + Name(V) + JsonString(h.1) + [RBRACE]
  }

  /** The headers from the first one, with the closing bracket. */
  function HeaderList(hs: seq<Header>): Bytes
    requires hs != []
  {
    HeaderText(hs[0]) + (if |hs| == 1 then [RBRACKET] else [COMMA] + HeaderList(hs[1..]))
  }

  function HeadersText(hs: seq<Header>): Bytes {
    [LBRACKET] + (if hs == [] then [RBRACKET] else HeaderList(hs))
  }

  function BodyText(len: nat, b64: Bytes): Bytes {
    [LBRACE] + Name(BYTES_LEN) + Decimal(len) + [COMMA] + Name(BASE64) + JsonString(b64) + [RBRACE]
  }

  datatype Request = Request(id: Bytes, verb: Bytes, path: Bytes, query: Bytes, headers: seq<Header>,
                             bodyLen: nat, bodyB64: Bytes)

  /** A member and the bytes after it. */
  function Put(name: Bytes, value: Bytes, more: Bytes): Bytes { Name(name) + value + more }

  /** The same with a comma in front. */
  function Next(name: Bytes, value: Bytes, more: Bytes): Bytes { [COMMA] + Put(name, value, more) }

  function RequestText(r: Request): Bytes {
    [LBRACE] + Put(SCHEMA_VERSION, Quoted(REQUEST_SCHEMA), Next(ID, JsonString(r.id),
      Next(METHOD, JsonString(r.verb), Next(PATH, JsonString(r.path), Next(QUERY, JsonString(r.query),
      Next(HEADERS, HeadersText(r.headers), Next(BODY, BodyText(r.bodyLen, r.bodyB64), [RBRACE])))))))
  }

  const ID := Ascii("id")
  const METHOD := Ascii("method")
  const PATH := Ascii("path")
  const QUERY := Ascii("query")
  const REQUEST := Ascii("request")
  const RESPONSE := Ascii("response")
  const STATE := Ascii("state")
  const BACKEND_REQUEST_SCHEMA := Ascii("x07.app.backend.request@0.1.0")
  const BACKEND_RESPONSE_SCHEMA := Ascii("x07.app.backend.response@0.1.0")

  /** The raw splice: the state bytes are copied as they are. */
  function BackendRequest(r: Request, state: Bytes): Bytes {
    [LBRACE] + Put(SCHEMA_VERSION, Quoted(BACKEND_REQUEST_SCHEMA), Next(REQUEST, RequestText(r), Next(STATE, state, [RBRACE])))
  }

  // ---------- printed text as trees ----------

  /** ASCII text that needs no escape. */
  predicate Plain(text: Bytes) { forall i :: 0 <= i < |text| ==> 0x20 <= text[i] < 0x80 && text[i] != QUOTE && text[i] != BACKSLASH }

  lemma {:induction false} PlainIsUtf8(text: Bytes)
    requires Plain(text)
    ensures IsUtf8(text)
    decreases |text|
  {
    if text != [] { PlainIsUtf8(text[1..]); }
  }

  lemma {:induction false} PlainParts(text: Bytes)
    requires Plain(text)
    ensures PrintParts(PartsOf(text)) == text
    decreases |text|
  {
    if text != [] {
      PlainParts(text[1..]);
      assert PartsOf(text)[1..] == PartsOf(text[1..]);
      assert text == [text[0]] + text[1..];
    }
  }

  /** Plain text printed as a string is the text in quotes. */
  lemma PlainString(text: Bytes)
    requires Plain(text)
    ensures JsonString(text) == Quoted(text) && GoodString(PartsOf(text)) && Meaning(PartsOf(text)) == text
  {
    hide PartsOf, Meaning, IsUtf8;
    PlainIsUtf8(text);
    PlainParts(text);
    PartsOfMean(text);
  }

  function StrOf(text: Bytes): Json { Str(PartsOf(text)) }

  lemma StrOfGood(text: Bytes)
    requires IsUtf8(text)
    ensures Good(StrOf(text)) && Print(StrOf(text)) == JsonString(text) && EvalText(StrOf(text)) == Some(text)
  {
    hide Meaning, IsUtf8, PrintString;
    PartsOfMean(text);
  }

  /** One compact member. */
  function Field(name: Bytes, v: Json, rest: Members): Members { Member([], PartsOf(name), [], [], v, [], rest) }

  lemma FieldPrints(name: Bytes, v: Json, rest: Members)
    requires Plain(name) && Good(v) && GoodMembers(rest)
    ensures GoodMembers(Field(name, v, rest)) && Meaning(PartsOf(name)) == name
    ensures PrintMembers(Field(name, v, rest))
         == Name(name) + Print(v) + (if rest.NoMembers? then [RBRACE] else [COMMA] + PrintMembers(rest))
  {
    hide Print, Meaning, IsUtf8, PrintString, PartsOf, Good;
    PlainString(name);
    var ms := Field(name, v, rest);
    hide PrintMembers;
    PrintMembersIs(ms);
    assert PrintKey(ms) == Name(name);
    assert Print(v) + [] == Print(v);
    assert Name(name) + (Print(v) + MemberTail(ms)) == Name(name) + Print(v) + MemberTail(ms);
  }

  function DecimalTree(n: nat): Json { Num(Number(false, Decimal(n), None, None)) }

  lemma DecimalTreeGood(n: nat)
    ensures Good(DecimalTree(n)) && Print(DecimalTree(n)) == Decimal(n)
    ensures EvalUint(DecimalTree(n), TWO32) == if n < TWO32 then Some(n) else None
  {
    DecimalValue(n);
    assert [] + Decimal(n) + [] + [] == Decimal(n);
  }

  lemma {:induction false} DecimalValue(n: nat)
    ensures DigitsValue(0, Decimal(n)) == n
    decreases n
  {
    if n >= 10 {
      DecimalValue(n / 10);
      DigitsValueSnoc(0, Decimal(n / 10), 0x30 + n % 10);
      assert (n / 10) * 10 + n % 10 == n;
    }
  }

  lemma {:induction false} DigitsValueSnoc(n: nat, d: Bytes, b: byte)
    requires AllDigits(d) && IsDigit(b)
    ensures AllDigits(d + [b]) && DigitsValue(n, d + [b]) == DigitsValue(n, d) * 10 + (b - 0x30)
    decreases |d|
  {
    if d == [] {
      assert d + [b] == [b] && [b][1..] == [];
    } else {
      assert (d + [b])[1..] == d[1..] + [b];
      DigitsValueSnoc(n * 10 + (d[0] - 0x30), d[1..], b);
    }
  }

  predicate PlainChar(c: char) { ' ' <= c <= '~' && c != '"' && c != '\\' }

  lemma PlainAscii(s: string)
    requires forall c :: c in s ==> PlainChar(c)
    ensures Plain(Ascii(s))
  {
    forall i | 0 <= i < |s| ensures PlainChar(s[i]) { assert s[i] in s; }
  }

  lemma HeaderNamesArePlain()
    ensures Plain(K) && Plain(V) && Plain(BYTES_LEN) && Plain(BASE64)
  {
    hide Plain;
    PlainAscii("k");
    PlainAscii("v");
    PlainAscii("bytes_len");
    PlainAscii("base64");
  }

  lemma RequestNamesArePlain()
    ensures Plain(SCHEMA_VERSION) && Plain(ID) && Plain(METHOD) && Plain(PATH) && Plain(QUERY) && Plain(HEADERS) && Plain(BODY)
  {
    hide Plain;
    PlainAscii("schema_version");
    PlainAscii("id");
    PlainAscii("method");
    PlainAscii("path");
    PlainAscii("query");
    PlainAscii("headers");
    PlainAscii("body");
  }

  lemma BackendNamesArePlain()
    ensures Plain(SCHEMA_VERSION) && Plain(REQUEST) && Plain(RESPONSE) && Plain(STATE)
  {
    hide Plain;
    PlainAscii("schema_version");
    PlainAscii("request");
    PlainAscii("response");
    PlainAscii("state");
  }

  lemma RequestSchemaIsPlain()
    ensures Plain(REQUEST_SCHEMA)
  {
    PlainAscii("x07.http.request.envelope@0.1.0");
  }

  lemma BackendSchemasArePlain()
    ensures Plain(BACKEND_REQUEST_SCHEMA) && Plain(BACKEND_RESPONSE_SCHEMA)
  {
    hide Plain;
    PlainAscii("x07.app.backend.request@0.1.0");
    PlainAscii("x07.app.backend.response@0.1.0");
  }

  function HeaderTree(h: Header): Json {
    Obj([], Field(K, StrOf(h.0), Field(V, StrOf(h.1), NoMembers)))
  }

  predicate HeaderUtf8(h: Header) { IsUtf8(h.0) && IsUtf8(h.1) }

  lemma HeaderTreePrints(h: Header)
    requires HeaderUtf8(h)
    ensures Good(HeaderTree(h)) && Print(HeaderTree(h)) == HeaderText(h) && EvalHeader(HeaderTree(h)) == Some(h)
  {
    hide IsUtf8, JsonString, StrOf, Name, Meaning, PartsOf, EvalText;
    HeaderNamesArePlain();
    StrOfGood(h.0);
    StrOfGood(h.1);
    var second := Field(V, StrOf(h.1), NoMembers);
    FieldPrints(V, StrOf(h.1), NoMembers);
    FieldPrints(K, StrOf(h.0), second);
    HeaderTreeMeans(h);
    HeaderTreeText(h, PrintMembers(second));
  }

  lemma HeaderTreeText(h: Header, second: Bytes)
    requires second == Name(V) + JsonString(h.1) + [RBRACE]
    ensures [LBRACE] + (Name(K) + JsonString(h.0) + ([COMMA] + second)) == HeaderText(h)
  {
  }

  lemma HeaderTreeMeans(h: Header)
    requires GoodMembers(HeaderTree(h).members) && Meaning(PartsOf(K)) == K && Meaning(PartsOf(V)) == V
    requires EvalText(StrOf(h.0)) == Some(h.0) && EvalText(StrOf(h.1)) == Some(h.1)
    ensures EvalHeader(HeaderTree(h)) == Some(h)
  {
    hide Meaning, PartsOf, EvalText, IsUtf8, Good, StrOf;
    assert K[0] != V[0];
    var second := Field(V, StrOf(h.1), NoMembers);
    var f1 := NO_HEADER.(k := Some(h.0));
    assert FoldMembers(HeaderEval, f1, second) == Some(f1.(v := Some(h.1)));
  }

  // ---------- headers and body ----------

  function HeaderItems(hs: seq<Header>): Items {
    if hs == [] then NoItems else Item([], HeaderTree(hs[0]), [], HeaderItems(hs[1..]))
  }

  function HeadersTree(hs: seq<Header>): Json { Arr([], HeaderItems(hs)) }

  predicate HeadersUtf8(hs: seq<Header>) { forall h :: h in hs ==> HeaderUtf8(h) }

  lemma {:induction false} HeaderItemsPrint(hs: seq<Header>, out: seq<Header>)
    requires HeadersUtf8(hs)
    ensures GoodItems(HeaderItems(hs)) && EvalHeaderItems(out, HeaderItems(hs)) == Some(out + hs)
    ensures hs != [] ==> PrintItems(HeaderItems(hs)) == HeaderList(hs)
    decreases |hs|
  {
    hide HeaderTree, HeaderText, Print, EvalHeader, Good, HeaderUtf8;
    if hs == [] {
      assert out + hs == out;
    } else {
      HeaderTreePrints(hs[0]);
      HeaderItemsPrint(hs[1..], out + [hs[0]]);
      assert out + [hs[0]] + hs[1..] == out + hs;
      var items := HeaderItems(hs);
      hide PrintItems;
      PrintItemsIs(items);
      assert [] + HeaderText(hs[0]) + [] + ItemTail(items) == HeaderText(hs[0]) + ItemTail(items);
    }
  }

  lemma HeadersTreePrints(hs: seq<Header>)
    requires HeadersUtf8(hs)
    ensures Good(HeadersTree(hs)) && Print(HeadersTree(hs)) == HeadersText(hs) && EvalHeaders(HeadersTree(hs)) == Some(hs)
  {
    hide PrintItems, HeaderList, EvalHeaderItems;
    HeaderItemsPrint(hs, []);
    assert [] + hs == hs;
    assert [] + [RBRACKET] == [RBRACKET];
  }

  /** The printed header list is read back unchanged, whatever follows. */
  lemma HeadersRoundTrip(hs: seq<Header>, rest: Bytes)
    requires HeadersUtf8(hs)
    ensures ParseHeaders(HeadersText(hs) + rest) == Some((hs, rest))
  {
    hide ParseHeaders, HeadersText, HeadersTree, Print, EvalHeaders;
    HeadersTreePrints(hs);
    HeadersParsed(HeadersTree(hs), rest);
  }

  function BodyTree(len: nat, b64: Bytes): Json {
    Obj([], Field(BYTES_LEN, DecimalTree(len), Field(BASE64, StrOf(b64), NoMembers)))
  }

  lemma BodyTreePrints(len: nat, b64: Bytes)
    requires IsUtf8(b64)
    ensures Good(BodyTree(len, b64)) && Print(BodyTree(len, b64)) == BodyText(len, b64)
    ensures EvalPayload(BodyTree(len, b64))
         == if len < TWO32 then FinishPayload(PayloadFields(Some(len), Some(b64), None)) else None
  {
    hide IsUtf8, JsonString, StrOf, Name, Meaning, PartsOf, EvalText, EvalUint, DecimalTree, Decimal, FinishPayload,
      EvalPayload, BodyText;
    BodyTreeParts(len, b64);
    BodyTreeText(len, b64, Name(BASE64) + JsonString(b64) + [RBRACE]);
    HeaderNamesArePlain();
    StrOfGood(b64);
    DecimalTreeGood(len);
    BodyTreeMeans(len, b64);
  }

  lemma BodyTreeParts(len: nat, b64: Bytes)
    requires IsUtf8(b64)
    ensures Good(BodyTree(len, b64)) && Meaning(PartsOf(BYTES_LEN)) == BYTES_LEN && Meaning(PartsOf(BASE64)) == BASE64
    ensures Print(BodyTree(len, b64))
         == [LBRACE] + (Name(BYTES_LEN) + Decimal(len) + ([COMMA] + (Name(BASE64) + JsonString(b64) + [RBRACE])))
  {
    hide IsUtf8, JsonString, StrOf, Name, Meaning, PartsOf, DecimalTree, Decimal;
    HeaderNamesArePlain();
    StrOfGood(b64);
    DecimalTreeGood(len);
    var second := Field(BASE64, StrOf(b64), NoMembers);
    FieldPrints(BASE64, StrOf(b64), NoMembers);
    FieldPrints(BYTES_LEN, DecimalTree(len), second);
  }

  lemma BodyTreeText(len: nat, b64: Bytes, second: Bytes)
    requires second == Name(BASE64) + JsonString(b64) + [RBRACE]
    ensures [LBRACE] + (Name(BYTES_LEN) + Decimal(len) + ([COMMA] + second)) == BodyText(len, b64)
  {
  }

  lemma BodyTreeMeans(len: nat, b64: Bytes)
    requires Good(BodyTree(len, b64)) && Meaning(PartsOf(BYTES_LEN)) == BYTES_LEN && Meaning(PartsOf(BASE64)) == BASE64
    requires EvalText(StrOf(b64)) == Some(b64)
    requires EvalUint(DecimalTree(len), TWO32) == if len < TWO32 then Some(len) else None
    ensures EvalPayload(BodyTree(len, b64))
         == if len < TWO32 then FinishPayload(PayloadFields(Some(len), Some(b64), None)) else None
  {
    hide Meaning, PartsOf, EvalText, EvalUint, IsUtf8, StrOf, DecimalTree, FinishPayload;
    assert |BYTES_LEN| == 9 && |BASE64| == 6;
    var second := Field(BASE64, StrOf(b64), NoMembers);
    var f1 := NO_PAYLOAD.(len := Some(len));
    assert FoldMembers(PayloadEval, f1, second) == Some(f1.(b64 := Some(b64)));
  }

  /** A printed body is read back exactly when its length fits in 32 bits; otherwise parsing fails. */
  lemma BodyRoundTrip(body: Bytes, rest: Bytes)
    ensures ParsePayload(BodyText(|body|, Base64.Encode(body)) + rest)
         == if |body| < TWO32 then Some((body, rest)) else None
  {
    hide ParsePayload, BodyText, BodyTree, Print, EvalPayload, Base64.Encode, IsUtf8;
    var b64 := Base64.Encode(body);
    EncodedIsPlain(body);
    PlainIsUtf8(b64);
    BodyTreePrints(|body|, b64);
    PayloadParsed(BodyTree(|body|, b64), rest);
    Base64.StdDecodeIff(b64, body);
  }

  lemma {:induction false} EncodedIsPlain(body: Bytes)
    ensures Plain(Base64.Encode(body))
    decreases |body|
  {
    if |body| >= 3 {
      EncodedIsPlain(body[3..]);
      EncodedBlockIsPlain(body[0], body[1], body[2]);
    } else if body != [] {
      EncodedBlockIsPlain(body[0], if |body| > 1 then body[1] else 0, 0);
    }
  }

  lemma EncodedBlockIsPlain(b0: byte, b1: byte, b2: byte)
    ensures Plain(Base64.EncodeBlock(b0, b1, b2))
  {
    var s0, s1, s2, s3 := b0 / 4, (b0 % 4) * 16 + b1 / 16, (b1 % 16) * 4 + b2 / 64, b2 % 64;
    CharIsPlain(s0);
    CharIsPlain(s1);
    CharIsPlain(s2);
    CharIsPlain(s3);
  }

  lemma CharIsPlain(v: Base64.sextet)
    ensures 0x20 <= Base64.B64Char(v) < 0x80 && Base64.B64Char(v) != QUOTE && Base64.B64Char(v) != BACKSLASH
  {
  }

  // ---------- the request ----------

  predicate RequestUtf8(r: Request) {
    && IsUtf8(r.id) && IsUtf8(r.verb) && IsUtf8(r.path) && IsUtf8(r.query) && IsUtf8(r.bodyB64)
    && HeadersUtf8(r.headers)
  }

  /** Prints a member in front of members already printed as `more`. */
  lemma FieldInFront(name: Bytes, v: Json, text: Bytes, rest: Members, more: Bytes)
    requires Plain(name) && Good(v) && Print(v) == text && GoodMembers(rest)
    requires more == if rest.NoMembers? then [RBRACE] else [COMMA] + PrintMembers(rest)
    ensures GoodMembers(Field(name, v, rest)) && Meaning(PartsOf(name)) == name
    ensures PrintMembers(Field(name, v, rest)) == Put(name, text, more)
    ensures [COMMA] + PrintMembers(Field(name, v, rest)) == Next(name, text, more)
  {
    hide Print, Meaning, IsUtf8, PartsOf, Good, PrintMembers, Name;
    FieldPrints(name, v, rest);
  }

  function TailMembers(r: Request): Members {
    Field(QUERY, StrOf(r.query), Field(HEADERS, HeadersTree(r.headers),
      Field(BODY, BodyTree(r.bodyLen, r.bodyB64), NoMembers)))
  }

  function RequestTree(r: Request): Json {
    Obj([], Field(SCHEMA_VERSION, StrOf(REQUEST_SCHEMA), Field(ID, StrOf(r.id),
      Field(METHOD, StrOf(r.verb), Field(PATH, StrOf(r.path), TailMembers(r))))))
  }

  function TailText(r: Request): Bytes {
    Next(QUERY, JsonString(r.query),
      Next(HEADERS, HeadersText(r.headers), Next(BODY, BodyText(r.bodyLen, r.bodyB64), [RBRACE])))
  }

  lemma TailPrints(r: Request)
    requires RequestUtf8(r)
    ensures TailMembers(r).Member? && GoodMembers(TailMembers(r)) && [COMMA] + PrintMembers(TailMembers(r)) == TailText(r)
  {
    hide Print, Meaning, IsUtf8, PartsOf, Good, PrintMembers, Put, StrOf, HeadersTree, BodyTree, HeadersText, BodyText, JsonString;
    RequestNamesArePlain();
    BodyTreePrints(r.bodyLen, r.bodyB64);
    HeadersTreePrints(r.headers);
    StrOfGood(r.query);
    var body := Field(BODY, BodyTree(r.bodyLen, r.bodyB64), NoMembers);
    var headers := Field(HEADERS, HeadersTree(r.headers), body);
    var bodyText := Next(BODY, BodyText(r.bodyLen, r.bodyB64), [RBRACE]);
    FieldInFront(BODY, BodyTree(r.bodyLen, r.bodyB64), BodyText(r.bodyLen, r.bodyB64), NoMembers, [RBRACE]);
    FieldInFront(HEADERS, HeadersTree(r.headers), HeadersText(r.headers), body, bodyText);
    FieldInFront(QUERY, StrOf(r.query), JsonString(r.query), headers, Next(HEADERS, HeadersText(r.headers), bodyText));
  }

  /** The printed request envelope is one well-formed value. */
  lemma RequestPrints(r: Request)
    requires RequestUtf8(r)
    ensures Good(RequestTree(r)) && Print(RequestTree(r)) == RequestText(r)
  {
    hide Meaning, IsUtf8, PartsOf, PrintMembers, Put, StrOf, TailMembers, TailText, JsonString, Plain;
    RequestNamesArePlain();
    RequestSchemaIsPlain();
    PlainIsUtf8(REQUEST_SCHEMA);
    PlainString(REQUEST_SCHEMA);
    StrOfGood(REQUEST_SCHEMA);
    StrOfGood(r.id);
    StrOfGood(r.verb);
    StrOfGood(r.path);
    TailPrints(r);
    var path := Field(PATH, StrOf(r.path), TailMembers(r));
    var meth := Field(METHOD, StrOf(r.verb), path);
    var id := Field(ID, StrOf(r.id), meth);
    var pathText := Next(PATH, JsonString(r.path), TailText(r));
    var methText := Next(METHOD, JsonString(r.verb), pathText);
    var idText := Next(ID, JsonString(r.id), methText);
    hide Print, Good;
    FieldInFront(PATH, StrOf(r.path), JsonString(r.path), TailMembers(r), TailText(r));
    FieldInFront(METHOD, StrOf(r.verb), JsonString(r.verb), path, pathText);
    FieldInFront(ID, StrOf(r.id), JsonString(r.id), meth, methText);
    FieldInFront(SCHEMA_VERSION, StrOf(REQUEST_SCHEMA), Quoted(REQUEST_SCHEMA), id, idText);
    ObjPrints(Field(SCHEMA_VERSION, StrOf(REQUEST_SCHEMA), id));
    RequestTextIs(r);
  }

  lemma ObjPrints(ms: Members)
    requires GoodMembers(ms) && ms.Member?
    ensures Good(Obj([], ms)) && Print(Obj([], ms)) == [LBRACE] + PrintMembers(ms)
  {
  }

  lemma RequestTextIs(r: Request)
    ensures RequestText(r)
         == [LBRACE] + Put(SCHEMA_VERSION, Quoted(REQUEST_SCHEMA), Next(ID, JsonString(r.id),
              Next(METHOD, JsonString(r.verb), Next(PATH, JsonString(r.path), TailText(r)))))
  {
    hide Put, Name;
  }

  // ---------- the backend documents ----------

  function BackendTree(r: Request, state: Json): Json {
    Obj([], Field(SCHEMA_VERSION, StrOf(BACKEND_REQUEST_SCHEMA), Field(REQUEST, RequestTree(r), Field(STATE, state, NoMembers))))
  }

  /** Splicing the text of one value gives one well-formed document whose state member is that value. */
  lemma BackendRequestPrints(r: Request, state: Json)
    requires RequestUtf8(r) && Good(state)
    ensures Good(BackendTree(r, state)) && Print(BackendTree(r, state)) == BackendRequest(r, Print(state))
  {
    hide Meaning, IsUtf8, PartsOf, PrintMembers, Put, StrOf, RequestTree, RequestText, JsonString, Plain, Print, Good;
    BackendNamesArePlain();
    BackendSchemasArePlain();
    PlainIsUtf8(BACKEND_REQUEST_SCHEMA);
    PlainString(BACKEND_REQUEST_SCHEMA);
    StrOfGood(BACKEND_REQUEST_SCHEMA);
    RequestPrints(r);
    var last := Field(STATE, state, NoMembers);
    var middle := Field(REQUEST, RequestTree(r), last);
    var lastText := Next(STATE, Print(state), [RBRACE]);
    FieldInFront(STATE, state, Print(state), NoMembers, [RBRACE]);
    FieldInFront(REQUEST, RequestTree(r), RequestText(r), last, lastText);
    FieldInFront(SCHEMA_VERSION, StrOf(BACKEND_REQUEST_SCHEMA), Quoted(BACKEND_REQUEST_SCHEMA), middle,
                 Next(REQUEST, RequestText(r), lastText));
    ObjPrints(Field(SCHEMA_VERSION, StrOf(BACKEND_REQUEST_SCHEMA), middle));
  }
}
