/**
 The adapters' envelope readers and printers as loops over the cursor and the
 output buffer, against their specifications.
 */
module AdapterCode {
  import opened Words
  import opened InputStream
  import opened JsonText
  import opened JsonScan
  import opened JsonMembers
  import opened Envelopes
  import opened StateDoc
  import opened StateTurns
  import opened JsonCursor
  import Base64

  // ---------- readers ----------

  /** After a member's value: whether the object goes on; None where it is malformed. */
  method NextMember(cur: Cursor) returns (r: Option<bool>)
    requires cur.Valid()
    modifies cur
    ensures cur.Valid()
    ensures
      var t := SkipWs(old(cur.Rest()));
      if Starts(t, COMMA) then r == Some(true) && cur.Rest() == t[1..]
      else if Starts(t, RBRACE) then r == Some(false) && cur.Rest() == t[1..]
      else r.None?
  {
    hide SkipWs;
    cur.SkipWhitespace();
    var b := cur.NextByte();
    r := if b == Some(COMMA) then Some(true) else if b == Some(RBRACE) then Some(false) else None;
  }

  /** One header object of `parse_headers`. */
  method ReadHeader(cur: Cursor) returns (r: Option<Header>)
    requires cur.Valid()
    modifies cur
    ensures cur.Valid() && r.Some? == ParseHeader(old(cur.Rest())).Some?
    ensures r.Some? ==> Some((r.value, cur.Rest())) == ParseHeader(old(cur.Rest()))
  {
    hide SkipWs, ParseKey, SkipValue, ParseString, Ascii;
    cur.SkipWhitespace();
    var open := cur.ExpectByte(LBRACE);
    if !open { return None; }
    cur.SkipWhitespace();
    ghost var start := cur.Rest();
    var f := NO_HEADER;
    while true
      invariant cur.Valid() && MemberLoop(HeaderStep, f, cur.Rest()) == MemberLoop(HeaderStep, NO_HEADER, start)
      decreases |cur.Rest()|
    {
      var key := cur.ReadKey();
      if key.None? { return None; }
      ghost var f0, s := f, cur.Rest();
      if key.value == K || key.value == V {
        var text := cur.ParseStringValue();
        if text.None? { return None; }
        f := if key.value == K then f.(k := text) else f.(v := text);
      } else {
        var ok := cur.SkipAnyValue();
        if !ok { return None; }
      }
      assert HeaderStep(f0, key.value, s) == Some((f, cur.Rest()));
      var more := NextMember(cur);
      if more.None? { return None; }
      if !more.value { break; }
    }
    r := if f.k.Some? && f.v.Some? then Some((f.k.value, f.v.value)) else None;
  }

  method ReadHeaders(cur: Cursor) returns (r: Option<seq<Header>>)
    requires cur.Valid()
    modifies cur
    ensures cur.Valid() && r.Some? == ParseHeaders(old(cur.Rest())).Some?
    ensures r.Some? ==> Some((r.value, cur.Rest())) == ParseHeaders(old(cur.Rest()))
  {
    hide SkipWs, ParseHeader;
    var open := cur.ExpectByte(LBRACKET);
    if !open { return None; }
    cur.SkipWhitespace();
    var out: seq<Header> := [];
    if cur.PeekByte() == Some(RBRACKET) {
      var _ := cur.NextByte();
      return Some(out);
    }
    ghost var start := cur.Rest();
    while true
      invariant cur.Valid() && HeaderLoop(out, cur.Rest()) == HeaderLoop([], start)
      decreases |cur.Rest()|
    {
      var h := ReadHeader(cur);
      if h.None? { return None; }
      out := out + [h.value];
      cur.SkipWhitespace();
      var b := cur.NextByte();
      if b == Some(RBRACKET) { return Some(out); }
      if b != Some(COMMA) { return None; }
    }
  }

  method ReadStreamPayload(cur: Cursor) returns (r: Option<Bytes>)
    requires cur.Valid()
    modifies cur
    ensures cur.Valid() && r.Some? == ParsePayload(old(cur.Rest())).Some?
    ensures r.Some? ==> Some((r.value, cur.Rest())) == ParsePayload(old(cur.Rest()))
  {
    hide SkipWs, ParseKey, SkipValue, ParseString, ParseU32, Ascii, Base64.StdDecode;
    var open := cur.ExpectByte(LBRACE);
    if !open { return None; }
    cur.SkipWhitespace();
    ghost var start := cur.Rest();
    var f := NO_PAYLOAD;
    while true
      invariant cur.Valid() && MemberLoop(PayloadStep, f, cur.Rest()) == MemberLoop(PayloadStep, NO_PAYLOAD, start)
      decreases |cur.Rest()|
    {
      var key := cur.ReadKey();
      if key.None? { return None; }
      ghost var f0, s := f, cur.Rest();
      if key.value == BYTES_LEN {
        var n := cur.ParseU32Value();
        if n.None? { return None; }
        f := f.(len := n);
      } else if key.value == BASE64 || key.value == TEXT {
        var text := cur.ParseStringValue();
        if text.None? { return None; }
        f := if key.value == BASE64 then f.(b64 := text) else f.(text := text);
      } else {
        var ok := cur.SkipAnyValue();
        if !ok { return None; }
      }
      assert PayloadStep(f0, key.value, s) == Some((f, cur.Rest()));
      var more := NextMember(cur);
      if more.None? { return None; }
      if !more.value { break; }
    }
    if f.len.None? { return None; }
    if f.b64.Some? {
      var decoded := Base64.StdDecode(f.b64.value);
      return if decoded.Some? && |decoded.value| == f.len.value then decoded else None;
    }
    if f.text.Some? {
      return if |f.text.value| == f.len.value then f.text else None;
    }
    r := if f.len.value == 0 then Some([]) else None;
  }

  method ParseResponseEnvelope(bytes: Bytes) returns (r: Option<Response>)
    ensures r == ParseResponse(bytes)
  {
    hide SkipWs, ParseKey, SkipValue, ParseString, ParseU16, ParseHeaders, ParsePayload, Ascii;
    var cur := new Cursor(bytes);
    cur.SkipWhitespace();
    var open := cur.ExpectByte(LBRACE);
    if !open { return None; }
    cur.SkipWhitespace();
    ghost var start := cur.Rest();
    var f := NO_FIELDS;
    while true
      invariant cur.Valid() && MemberLoop(ResponseStep, f, cur.Rest()) == MemberLoop(ResponseStep, NO_FIELDS, start)
      decreases |cur.Rest()|
    {
      var key := cur.ReadKey();
      if key.None? { return None; }
      ghost var f0, s := f, cur.Rest();
      if key.value == SCHEMA_VERSION || key.value == REQUEST_ID {
        var text := cur.ParseStringValue();
        if text.None? { return None; }
        f := if key.value == SCHEMA_VERSION then f.(schema := text) else f.(id := text);
      } else if key.value == STATUS {
        var n := cur.ParseU16Value();
        if n.None? { return None; }
        f := f.(status := n);
      } else if key.value == HEADERS {
        var hs := ReadHeaders(cur);
        if hs.None? { return None; }
        f := f.(headers := hs);
      } else if key.value == BODY {
        var body := ReadStreamPayload(cur);
        if body.None? { return None; }
        f := f.(body := body);
      } else {
        var ok := cur.SkipAnyValue();
        if !ok { return None; }
      }
      assert ResponseStep(f0, key.value, s) == Some((f, cur.Rest()));
      var more := NextMember(cur);
      if more.None? { return None; }
      if !more.value { break; }
    }
    if f.schema != Some(RESPONSE_SCHEMA) || f.id.None? || f.status.None? || f.headers.None? || f.body.None? {
      return None;
    }
    r := Some(Response(f.id.value, f.status.value, f.headers.value, f.body.value));
  }

  /** Skips a value and keeps its raw bytes. */
  method TakeSlice(cur: Cursor) returns (r: Option<Bytes>)
    requires cur.Valid()
    modifies cur
    ensures cur.Valid() && r.Some? == Slice(old(cur.Rest())).Some?
    ensures r.Some? ==> Some((r.value, cur.Rest())) == Slice(old(cur.Rest())) && |cur.Rest()| < |old(cur.Rest())|
  {
    hide SkipValue;
    ghost var s := cur.Rest();
    var start := cur.i;
    var ok := cur.SkipAnyValue();
    if !ok { return None; }
    assert cur.bytes[start..cur.i] == s[..|s| - |cur.Rest()|];
    r := Some(cur.bytes[start..cur.i]);
  }

  /** The value of one member of the backend's answer; None where it panics. */
  method ReadBackendMember(cur: Cursor, key: Bytes, f0: BackendFields) returns (r: Option<BackendFields>)
    requires cur.Valid()
    modifies cur
    ensures cur.Valid() && (r.Some? ==> |cur.Rest()| <= |old(cur.Rest())|)
    ensures BackendStep(f0, key, old(cur.Rest())) == if r.Some? then Some((r.value, cur.Rest())) else None
  {
    hide SkipValue, ParseString, Ascii, Slice;
    if key == SCHEMA_VERSION {
      var text := cur.ParseStringValue();
      if text.None? { return None; }
      return Some(f0.(schema := text));
    } else if key == RESPONSE || key == STATE {
      var slice := TakeSlice(cur);
      if slice.None? { return None; }
      return Some(if key == RESPONSE then f0.(response := slice) else f0.(state := slice));
    }
    var ok := cur.SkipAnyValue();
    r := if ok then Some(f0) else None;
  }

  method ParseBackendResponse(bytes: Bytes) returns (r: Option<Backend>)
    ensures r == ParseBackend(bytes)
  {
    hide SkipWs, ParseKey, SkipValue, ParseString, ParseResponse, Ascii, Slice, BackendStep;
    var cur := new Cursor(bytes);
    cur.SkipWhitespace();
    var open := cur.ExpectByte(LBRACE);
    if !open { return None; }
    cur.SkipWhitespace();
    ghost var start := cur.Rest();
    var f := NO_BACKEND;
    while true
      invariant cur.Valid() && MemberLoop(BackendStep, f, cur.Rest()) == MemberLoop(BackendStep, NO_BACKEND, start)
      decreases |cur.Rest()|
    {
      var key := cur.ReadKey();
      if key.None? { return None; }
      var read := ReadBackendMember(cur, key.value, f);
      if read.None? { return None; }
      f := read.value;
      var more := NextMember(cur);
      if more.None? { return None; }
      if !more.value { break; }
    }
    if f.schema != Some(BACKEND_RESPONSE_SCHEMA) || f.response.None? || f.state.None? { return None; }
    var response := ParseResponseEnvelope(f.response.value);
    r := if response.None? then None else Some(Backend(response.value, f.state.value));
  }

  // ---------- reading a request body ----------

  /** The read loop of a request body; FailedRead is a panic. */
  method ReadIncomingBodyLimited(input: seq<ReadResult>, limit: nat) returns (r: Received)
    ensures r == Receive([], input, limit)
    ensures r.Input? ==> |r.bytes| <= limit
  {
    var out: Bytes := [];
    var k := 0;
    while k < |input|
      invariant 0 <= k <= |input| && |out| <= limit && Receive(out, input[k..], limit) == Receive([], input, limit)
    {
      var read := input[k];
      assert input[k..][1..] == input[k + 1..];
      if read.ReadClosed? { return Input(out); }
      if read.ReadFailed? { return FailedRead; }
      if read.bytes == [] { return Input(out); }
      if |out| + |read.bytes| > limit { return OverBudget; }
      out := out + read.bytes;
      k := k + 1;
    }
    r := Input(out);
  }

  // ---------- printers ----------

  class Output {
    var out: Bytes

    constructor ()
      ensures out == []
    {
      out := [];
    }

    method Push(bytes: Bytes)
      modifies this
      ensures out == old(out) + bytes
    {
      out := out + bytes;
    }

    /** Digits go into a 20-byte buffer from the right; it never underflows for a 64-bit number. */
    method PushU64Dec(n: nat)
      requires n < TWO32 * TWO32
      modifies this
      ensures out == old(out) + Decimal(n)
    {
      hide Pow10;
      if n == 0 {
        out := out + [ZERO];
        return;
      }
      U64FitsBuffer(n);
      var buf := new byte[20](_ => 0);
      var at: nat := 20;
      var left := n;
      while left != 0
        invariant left >= 0 && at <= 20 && out == old(out)
        invariant left == 0 ==> buf[at..] == Decimal(n)
        invariant left != 0 ==> Decimal(n) == Decimal(left) + buf[at..]
        decreases left
      {
        var d := left % 10;
        DecimalSplit(left);
        assert |Decimal(left)| >= 1 && |buf[at..]| == 20 - at;
        at := at - 1;
        ghost var tail := buf[at + 1..];
        buf[at] := ZERO + d;
        assert buf[at..] == [ZERO + d] + tail;
        left := left / 10;
      }
      out := out + buf[at..];
    }

    method PushJsonString(text: Bytes)
      modifies this
      ensures out == old(out) + JsonString(text)
    {
      hide PartOf, PrintPart;
      ghost var ps := PartsOf(text);
      out := out + [QUOTE];
      for k := 0 to |text|
        invariant out == old(out) + [QUOTE] + PrintParts(ps[..k])
      {
        PrintPartsSnoc(ps[..k], ps[k]);
        assert ps[..k + 1] == ps[..k] + [ps[k]];
        PushEscaped(text[k]);
      }
      assert ps[..|text|] == ps;
      out := out + [QUOTE];
    }

    method PushEscaped(b: byte)
      modifies this
      ensures out == old(out) + PrintPart(PartOf(b))
    {
      if b == QUOTE {
        out := out + [BACKSLASH, QUOTE];
      } else if b == BACKSLASH {
        out := out + [BACKSLASH, BACKSLASH];
      } else if b < 0x20 {
        var start := out;
        out := out + [BACKSLASH, LOWER_U, ZERO, ZERO];
        out := out + [HexChar(b / 16)];
        out := out + [HexChar(b % 16)];
        assert out == start + ([BACKSLASH, LOWER_U] + [ZERO, ZERO, HexChar(b / 16), HexChar(b % 16)]);
      } else {
        out := out + [b];
      }
    }
  }

  lemma DecimalSplit(n: nat)
    requires n != 0
    ensures n < 10 ==> Decimal(n) == [ZERO + n % 10]
    ensures n >= 10 ==> Decimal(n) == Decimal(n / 10) + [ZERO + n % 10]
  {
  }

  lemma {:induction false} PrintPartsSnoc(ps: seq<Part>, p: Part)
    ensures PrintParts(ps + [p]) == PrintParts(ps) + PrintPart(p)
    decreases |ps|
  {
    hide PrintPart;
    if ps == [] {
      assert ([] + [p])[1..] == [];
    } else {
      assert (ps + [p])[1..] == ps[1..] + [p];
      PrintPartsSnoc(ps[1..], p);
    }
  }

  lemma Regroup(a: Bytes, b: Bytes, c: Bytes, more: Bytes)
    ensures a + b + c + more == a + (b + c + more)
  {
  }

  /** Pushes a member whose value is plain JSON text; `goal` is what the output will become. */
  method PushMember(o: Output, name: Bytes, value: Bytes, ghost more: Bytes, ghost goal: Bytes)
    requires o.out + Put(name, value, more) == goal
    modifies o
    ensures o.out + more == goal
  {
    hide Name;
    ghost var before := o.out;
    o.Push(Name(name));
    o.Push(value);
    Regroup(before, Name(name), value, more);
  }

  method PushStringMember(o: Output, name: Bytes, text: Bytes, ghost more: Bytes, ghost goal: Bytes)
    requires o.out + Next(name, JsonString(text), more) == goal
    modifies o
    ensures o.out + more == goal
  {
    hide Name, JsonString;
    ghost var before := o.out;
    o.Push([COMMA]);
    o.Push(Name(name));
    o.PushJsonString(text);
    assert before + [COMMA] + Name(name) + JsonString(text) + more == before + ([COMMA] + (Name(name) + JsonString(text) + more));
  }

  method PushHeader(o: Output, h: Header)
    modifies o
    ensures o.out == old(o.out) + HeaderText(h)
  {
    hide Name, JsonString;
    ghost var before := o.out;
    o.Push([LBRACE] + Name(K));
    o.PushJsonString(h.0);
    o.Push([COMMA] + Name(V));
    o.PushJsonString(h.1);
    o.Push([RBRACE]);
    HeaderPieces(before, h);
  }

  lemma HeaderPieces(before: Bytes, h: Header)
    ensures before + ([LBRACE] + Name(K)) + JsonString(h.0) + ([COMMA] + Name(V)) + JsonString(h.1) + [RBRACE]
         == before + HeaderText(h)
  {
    hide Name, JsonString;
  }

  /** The rest of the list from header i. */
  function ListFrom(hs: seq<Header>, i: nat): Bytes
    requires i <= |hs|
  {
    if i == |hs| then [RBRACKET] else (if i == 0 then [] else [COMMA]) + HeaderList(hs[i..])
  }

  method PushHeaders(o: Output, hs: seq<Header>)
    modifies o
    ensures o.out == old(o.out) + HeadersText(hs)
  {
    hide HeaderText, HeaderList, ListFrom, HeadersText;
    ghost var before := o.out;
    ghost var goal := before + HeadersText(hs);
    o.Push([LBRACKET]);
    ListStart(before, hs);
    for i := 0 to |hs|
      invariant o.out + ListFrom(hs, i) == goal
    {
      ListStep(o.out, hs, i, goal);
      if i != 0 { o.Push([COMMA]); }
      PushHeader(o, hs[i]);
    }
    ListEnd(hs);
    o.Push([RBRACKET]);
  }

  lemma ListStart(before: Bytes, hs: seq<Header>)
    ensures before + [LBRACKET] + ListFrom(hs, 0) == before + HeadersText(hs)
  {
    hide HeaderText, HeaderList;
    assert hs[0..] == hs;
    if hs != [] { assert [] + HeaderList(hs) == HeaderList(hs); }
  }

  lemma ListEnd(hs: seq<Header>)
    ensures ListFrom(hs, |hs|) == [RBRACKET]
  {
  }

  lemma ListStep(out: Bytes, hs: seq<Header>, i: nat, goal: Bytes)
    requires i < |hs| && out + ListFrom(hs, i) == goal
    ensures out + (if i != 0 then [COMMA] else []) + HeaderText(hs[i]) + ListFrom(hs, i + 1) == goal
  {
    hide HeaderText;
    var sep := if i != 0 then [COMMA] else [];
    assert hs[i..][0] == hs[i] && hs[i..][1..] == hs[i + 1..];
    assert HeaderList(hs[i..]) == HeaderText(hs[i]) + ListFrom(hs, i + 1);
    Regroup(out, sep, HeaderText(hs[i]), ListFrom(hs, i + 1));
    assert sep + HeaderText(hs[i]) + ListFrom(hs, i + 1) == sep + HeaderList(hs[i..]);
  }

  method PushBody(o: Output, len: nat, b64: Bytes)
    requires len < TWO32 * TWO32
    modifies o
    ensures o.out == old(o.out) + BodyText(len, b64)
  {
    hide Name, JsonString, Decimal;
    ghost var before := o.out;
    o.Push([LBRACE] + Name(BYTES_LEN));
    o.PushU64Dec(len);
    o.Push([COMMA] + Name(BASE64));
    o.PushJsonString(b64);
    o.Push([RBRACE]);
    BodyPieces(before, len, b64);
  }

  lemma BodyPieces(before: Bytes, len: nat, b64: Bytes)
    ensures before + ([LBRACE] + Name(BYTES_LEN)) + Decimal(len) + ([COMMA] + Name(BASE64)) + JsonString(b64) + [RBRACE]
         == before + BodyText(len, b64)
  {
    hide Name, JsonString, Decimal;
  }

  method RequestEnvelopeBytes(r: Request) returns (bytes: Bytes)
    requires r.bodyLen < TWO32 * TWO32
    ensures bytes == RequestText(r)
  {
    hide Name, JsonString, HeadersText, BodyText, Quoted;
    var o := new Output();
    ghost var goal := RequestText(r);
    ghost var t7 := [RBRACE];
    ghost var t6 := Next(BODY, BodyText(r.bodyLen, r.bodyB64), t7);
    ghost var t5 := Next(HEADERS, HeadersText(r.headers), t6);
    ghost var t4 := Next(QUERY, JsonString(r.query), t5);
    ghost var t3 := Next(PATH, JsonString(r.path), t4);
    ghost var t2 := Next(METHOD, JsonString(r.verb), t3);
    ghost var t1 := Next(ID, JsonString(r.id), t2);
    hide Put;
    o.Push([LBRACE]);
    PushMember(o, SCHEMA_VERSION, Quoted(REQUEST_SCHEMA), t1, goal);
    PushStringMember(o, ID, r.id, t2, goal);
    PushStringMember(o, METHOD, r.verb, t3, goal);
    PushStringMember(o, PATH, r.path, t4, goal);
    PushStringMember(o, QUERY, r.query, t5, goal);
    PushHeadersMember(o, r.headers, t6, goal);
    PushBodyMember(o, r.bodyLen, r.bodyB64, t7, goal);
    o.Push([RBRACE]);
    bytes := o.out;
  }

  method PushHeadersMember(o: Output, hs: seq<Header>, ghost more: Bytes, ghost goal: Bytes)
    requires o.out + Next(HEADERS, HeadersText(hs), more) == goal
    modifies o
    ensures o.out + more == goal
  {
    hide Name, HeadersText;
    ghost var before := o.out;
    o.Push([COMMA] + Name(HEADERS));
    PushHeaders(o, hs);
    assert before + ([COMMA] + Name(HEADERS)) + HeadersText(hs) + more == before + ([COMMA] + (Name(HEADERS) + HeadersText(hs) + more));
  }

  method PushBodyMember(o: Output, len: nat, b64: Bytes, ghost more: Bytes, ghost goal: Bytes)
    requires len < TWO32 * TWO32 && o.out + Next(BODY, BodyText(len, b64), more) == goal
    modifies o
    ensures o.out + more == goal
  {
    hide Name, BodyText;
    ghost var before := o.out;
    o.Push([COMMA] + Name(BODY));
    PushBody(o, len, b64);
    assert before + ([COMMA] + Name(BODY)) + BodyText(len, b64) + more == before + ([COMMA] + (Name(BODY) + BodyText(len, b64) + more));
  }

  method BackendRequestBytes(r: Request, state: Bytes) returns (bytes: Bytes)
    requires r.bodyLen < TWO32 * TWO32
    ensures bytes == BackendRequest(r, state)
  {
    hide Name, RequestText, Quoted;
    var request := RequestEnvelopeBytes(r);
    var o := new Output();
    ghost var goal := BackendRequest(r, state);
    ghost var t2 := Next(STATE, state, [RBRACE]);
    ghost var t1 := Next(REQUEST, RequestText(r), t2);
    hide Put;
    o.Push([LBRACE]);
    PushMember(o, SCHEMA_VERSION, Quoted(BACKEND_REQUEST_SCHEMA), t1, goal);
    PushRaw(o, REQUEST, request, t2, goal);
    PushRaw(o, STATE, state, [RBRACE], goal);
    o.Push([RBRACE]);
    bytes := o.out;
  }

  /** A member whose value is copied as raw bytes. */
  method PushRaw(o: Output, name: Bytes, value: Bytes, ghost more: Bytes, ghost goal: Bytes)
    requires o.out + Next(name, value, more) == goal
    modifies o
    ensures o.out + more == goal
  {
    hide Name;
    ghost var before := o.out;
    o.Push([COMMA] + Name(name));
    o.Push(value);
    assert before + ([COMMA] + Name(name)) + value + more == before + ([COMMA] + (Name(name) + value + more));
  }
}
