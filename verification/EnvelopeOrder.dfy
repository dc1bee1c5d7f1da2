/**
 A response envelope means the same in every member order, with any whitespace
 and any unknown members, at every level: the envelope itself, each of its
 headers, and its body.
 */
module EnvelopeOrder {
  import opened Words
  import opened JsonText
  import opened JsonScan
  import opened JsonMembers
  import opened Envelopes

  // ---------- members by name ----------

  /** The value of the first member with this name. */
  function Find(ms: Members, key: Bytes): Option<Json>
    requires GoodMembers(ms)
  {
    if ms.NoMembers? then None
    else if Meaning(ms.key) == key then Some(ms.v)
    else Find(ms.rest, key)
  }

  /** None of these names occurs twice. */
  predicate Once(names: set<Bytes>, ms: Members)
    requires GoodMembers(ms)
  {
    ms.Member? ==> (Meaning(ms.key) in names ==> Find(ms.rest, Meaning(ms.key)).None?) && Once(names, ms.rest)
  }

  lemma {:induction false} FindGood(ms: Members, key: Bytes)
    requires GoodMembers(ms)
    ensures Find(ms, key).Some? ==> Good(Find(ms, key).value)
    decreases ms
  {
    hide GoodString, Meaning, Good;
    if ms.Member? { FindGood(ms.rest, key); }
  }

  /** A field after the member of its name, if there is one; None where the member is ill-typed. */
  function Read<T>(found: Option<Json>, meaning: Json -> Option<T>, earlier: Option<T>): Option<Option<T>> {
    if found.None? then Some(earlier)
    else if meaning(found.value).None? then None
    else Some(meaning(found.value))
  }

  // ---------- a header ----------

  const HEADER_NAMES: set<Bytes> := {K, V}

  function HeaderSlots(f: HeaderFields, k: Option<Json>, v: Option<Json>): Option<HeaderFields> {
    var a, b := Read(k, EvalText, f.k), Read(v, EvalText, f.v);
    if a.None? || b.None? then None else Some(HeaderFields(a.value, b.value))
  }

  lemma HeaderNamesDiffer()
    ensures K != V
  {
    assert K[0] == 'k' as int && V[0] == 'v' as int;
  }

  /** Each field of a header is the member of its name. */
  lemma {:induction false} HeaderFold(f: HeaderFields, ms: Members)
    requires GoodMembers(ms) && Once(HEADER_NAMES, ms)
    ensures FoldMembers(HeaderEval, f, ms) == HeaderSlots(f, Find(ms, K), Find(ms, V))
    decreases ms
  {
    hide Meaning, IsUtf8, EvalText, Good;
    HeaderNamesDiffer();
    if ms.Member? {
      var e := HeaderEval(f, Meaning(ms.key), ms.v);
      if e.Some? { HeaderFold(e.value, ms.rest); }
    }
  }

  // ---------- a body ----------

  const PAYLOAD_NAMES: set<Bytes> := {BYTES_LEN, BASE64, TEXT}

  function U32(v: Json): Option<nat> { EvalUint(v, TWO32) }

  function U16(v: Json): Option<nat> { EvalUint(v, 0x1_0000) }

  function PayloadSlots(f: PayloadFields, n: Option<Json>, b64: Option<Json>, text: Option<Json>): Option<PayloadFields> {
    var a, b, c := Read(n, U32, f.len), Read(b64, EvalText, f.b64), Read(text, EvalText, f.text);
    if a.None? || b.None? || c.None? then None else Some(PayloadFields(a.value, b.value, c.value))
  }

  lemma PayloadNamesDiffer()
    ensures |BYTES_LEN| == 9 && |BASE64| == 6 && |TEXT| == 4
  {
  }

  lemma {:induction false} PayloadFold(f: PayloadFields, ms: Members)
    requires GoodMembers(ms) && Once(PAYLOAD_NAMES, ms)
    ensures FoldMembers(PayloadEval, f, ms) == PayloadSlots(f, Find(ms, BYTES_LEN), Find(ms, BASE64), Find(ms, TEXT))
    decreases ms
  {
    hide Meaning, IsUtf8, EvalText, EvalUint, Good;
    PayloadNamesDiffer();
    if ms.Member? {
      var e := PayloadEval(f, Meaning(ms.key), ms.v);
      if e.Some? { PayloadFold(e.value, ms.rest); }
    }
  }

  // ---------- the envelope ----------

  const RESPONSE_NAMES: set<Bytes> := {SCHEMA_VERSION, REQUEST_ID, STATUS, HEADERS, BODY}

  function ResponseSlots(f: Fields, schema: Option<Json>, id: Option<Json>, status: Option<Json>,
                         headers: Option<Json>, body: Option<Json>): Option<Fields> {
    var a, b, c := Read(schema, EvalText, f.schema), Read(id, EvalText, f.id), Read(status, U16, f.status);
    var d, e := Read(headers, EvalHeaders, f.headers), Read(body, EvalPayload, f.body);
    if a.None? || b.None? || c.None? || d.None? || e.None? then None
    else Some(Fields(a.value, b.value, c.value, d.value, e.value))
  }

  function Found(f: Fields, ms: Members): Option<Fields>
    requires GoodMembers(ms)
  {
    ResponseSlots(f, Find(ms, SCHEMA_VERSION), Find(ms, REQUEST_ID), Find(ms, STATUS), Find(ms, HEADERS), Find(ms, BODY))
  }

  lemma ResponseNamesDiffer()
    ensures |SCHEMA_VERSION| == 14 && |REQUEST_ID| == 10 && |STATUS| == 6 && |HEADERS| == 7 && |BODY| == 4
  {
  }

  lemma {:induction false} ResponseFold(f: Fields, ms: Members)
    requires GoodMembers(ms) && Once(RESPONSE_NAMES, ms)
    ensures FoldMembers(ResponseEval, f, ms) == Found(f, ms)
    decreases ms
  {
    hide Meaning, IsUtf8, EvalText, EvalUint, EvalHeaders, EvalPayload, Good;
    ResponseNamesDiffer();
    if ms.Member? {
      var e := ResponseEval(f, Meaning(ms.key), ms.v);
      if e.Some? { ResponseFold(e.value, ms.rest); }
    }
  }

  lemma ResponseFromKnown(t: Json)
    requires Good(t) && t.Obj? && Once(RESPONSE_NAMES, t.members)
    ensures
      var f := Found(NO_FIELDS, t.members);
      EvalResponse(t) == if f.None? then None else FinishResponse(f.value)
  {
    hide EvalText, EvalUint, EvalHeaders, EvalPayload;
    ResponseFold(NO_FIELDS, t.members);
  }

  /** There is such a member and it means x. */
  predicate Holds<T(==)>(found: Option<Json>, meaning: Json -> Option<T>, x: T) {
    found.Some? && meaning(found.value) == Some(x)
  }

  /** The response is r exactly when each of its five members is there and means its part of r. */
  lemma EvalFromKnown(t: Json, r: Response)
    requires Good(t) && t.Obj? && Once(RESPONSE_NAMES, t.members)
    ensures EvalResponse(t) == Some(r) <==>
      && Holds(Find(t.members, Ascii("schema_version")), EvalText, Ascii("x07.http.response.envelope@0.1.0"))
      && Holds(Find(t.members, Ascii("request_id")), EvalText, r.id)
      && Holds(Find(t.members, Ascii("status")), U16, r.status)
      && Holds(Find(t.members, Ascii("headers")), EvalHeaders, r.headers)
      && Holds(Find(t.members, Ascii("body")), EvalPayload, r.body)
  {
    hide EvalText, EvalUint, EvalHeaders, EvalPayload, EvalResponse, Find, Once;
    ResponseFromKnown(t);
  }

  // ---------- values that mean the same ----------

  type Likeness = (Json, Json) -> bool

  /** Strings of the same meaning, equal numbers, or neither. */
  predicate LeafAlike(v: Json, w: Json) {
    match (v, w)
    case (Str(ps), Str(qs)) => GoodParts(ps) && GoodParts(qs) && Meaning(ps) == Meaning(qs)
    case (Num(n), Num(m)) => n == m
    case _ => !v.Str? && !v.Num? && !w.Str? && !w.Num?
  }

  /** Both have this member or neither has, and the two values are alike. */
  predicate SameMember(alike: Likeness, key: Bytes, ms: Members, ns: Members)
    requires GoodMembers(ms) && GoodMembers(ns)
  {
    var a, b := Find(ms, key), Find(ns, key);
    a.Some? == b.Some? && (a.Some? ==> alike(a.value, b.value))
  }

  predicate ArePairs(names: set<Bytes>, v: Json, w: Json) {
    Good(v) && Good(w) && v.Obj? && w.Obj? && Once(names, v.members) && Once(names, w.members)
  }

  predicate HeaderAlike(v: Json, w: Json) {
    (!v.Obj? && !w.Obj?)
    || (ArePairs(HEADER_NAMES, v, w)
        && SameMember(LeafAlike, K, v.members, w.members) && SameMember(LeafAlike, V, v.members, w.members))
  }

  predicate ItemsAlike(vs: Items, ws: Items) {
    match (vs, ws)
    case (Item(_, v, _, vs'), Item(_, w, _, ws')) => HeaderAlike(v, w) && ItemsAlike(vs', ws')
    case _ => vs.NoItems? && ws.NoItems?
  }

  /** Lists of pairwise alike headers, or neither is a list. */
  predicate HeadersAlike(v: Json, w: Json) {
    (!v.Arr? && !w.Arr?) || (v.Arr? && w.Arr? && ItemsAlike(v.items, w.items))
  }

  predicate BodyAlike(v: Json, w: Json) {
    (!v.Obj? && !w.Obj?)
    || (ArePairs(PAYLOAD_NAMES, v, w)
        && SameMember(LeafAlike, BYTES_LEN, v.members, w.members)
        && SameMember(LeafAlike, BASE64, v.members, w.members) && SameMember(LeafAlike, TEXT, v.members, w.members))
  }

  /** The same envelope up to member order, whitespace, string spelling and unknown members, at every level. */
  predicate ResponseAlike(v: Json, w: Json) {
    && ArePairs(RESPONSE_NAMES, v, w)
    && SameMember(LeafAlike, SCHEMA_VERSION, v.members, w.members)
    && SameMember(LeafAlike, REQUEST_ID, v.members, w.members)
    && SameMember(LeafAlike, STATUS, v.members, w.members)
    && SameMember(HeadersAlike, HEADERS, v.members, w.members)
    && SameMember(BodyAlike, BODY, v.members, w.members)
  }

  lemma LeavesMeanTheSame(v: Json, w: Json, bound: nat)
    requires LeafAlike(v, w)
    ensures EvalText(v) == EvalText(w) && EvalUint(v, bound) == EvalUint(w, bound)
  {
    hide Meaning, DigitsValue;
  }

  lemma LeafReadsTheSame(key: Bytes, ms: Members, ns: Members)
    requires GoodMembers(ms) && GoodMembers(ns) && SameMember(LeafAlike, key, ms, ns)
    ensures forall d :: Read(Find(ms, key), EvalText, d) == Read(Find(ns, key), EvalText, d)
    ensures forall d :: Read(Find(ms, key), U32, d) == Read(Find(ns, key), U32, d)
    ensures forall d :: Read(Find(ms, key), U16, d) == Read(Find(ns, key), U16, d)
  {
    hide EvalText, EvalUint, LeafAlike, Find;
    if Find(ms, key).Some? {
      LeavesMeanTheSame(Find(ms, key).value, Find(ns, key).value, TWO32);
      LeavesMeanTheSame(Find(ms, key).value, Find(ns, key).value, 0x1_0000);
    }
  }

  /** A missing key or value and an empty object are refused alike. */
  lemma HeadersMeanTheSame(v: Json, w: Json)
    requires HeaderAlike(v, w)
    ensures EvalHeader(v) == EvalHeader(w)
  {
    hide EvalText, Find, Once, LeafAlike, FoldMembers;
    if v.Obj? {
      HeaderFromKnown(v);
      HeaderFromKnown(w);
      LeafReadsTheSame(K, v.members, w.members);
      LeafReadsTheSame(V, v.members, w.members);
    }
  }

  function HeaderOf(f: Option<HeaderFields>): Option<Header> {
    if f.None? || f.value.k.None? || f.value.v.None? then None else Some((f.value.k.value, f.value.v.value))
  }

  lemma HeaderFromKnown(v: Json)
    requires Good(v) && v.Obj? && Once(HEADER_NAMES, v.members)
    ensures EvalHeader(v) == HeaderOf(HeaderSlots(NO_HEADER, Find(v.members, K), Find(v.members, V)))
  {
    hide EvalText;
    HeaderFold(NO_HEADER, v.members);
  }

  lemma {:induction false} HeaderItemsMeanTheSame(out: seq<Header>, vs: Items, ws: Items)
    requires ItemsAlike(vs, ws)
    ensures EvalHeaderItems(out, vs) == EvalHeaderItems(out, ws)
    decreases vs
  {
    hide HeaderAlike, EvalHeader;
    if vs.Item? {
      HeadersMeanTheSame(vs.v, ws.v);
      var h := EvalHeader(vs.v);
      if h.Some? { HeaderItemsMeanTheSame(out + [h.value], vs.rest, ws.rest); }
    }
  }

  lemma HeaderListsMeanTheSame(v: Json, w: Json)
    requires HeadersAlike(v, w)
    ensures EvalHeaders(v) == EvalHeaders(w)
  {
    if v.Arr? { HeaderItemsMeanTheSame([], v.items, w.items); }
  }

  lemma PayloadFromKnown(v: Json)
    requires Good(v) && v.Obj? && Once(PAYLOAD_NAMES, v.members)
    ensures
      var f := PayloadSlots(NO_PAYLOAD, Find(v.members, BYTES_LEN), Find(v.members, BASE64), Find(v.members, TEXT));
      EvalPayload(v) == if f.None? then None else FinishPayload(f.value)
  {
    hide EvalText, EvalUint;
    PayloadFold(NO_PAYLOAD, v.members);
  }

  lemma BodiesMeanTheSame(v: Json, w: Json)
    requires BodyAlike(v, w)
    ensures EvalPayload(v) == EvalPayload(w)
  {
    hide EvalText, EvalUint, Find, Once, LeafAlike, FoldMembers, FinishPayload;
    if v.Obj? {
      PayloadFromKnown(v);
      PayloadFromKnown(w);
      LeafReadsTheSame(BYTES_LEN, v.members, w.members);
      LeafReadsTheSame(BASE64, v.members, w.members);
      LeafReadsTheSame(TEXT, v.members, w.members);
    }
  }

  lemma PartsReadTheSame(ms: Members, ns: Members)
    requires GoodMembers(ms) && GoodMembers(ns)
    requires SameMember(HeadersAlike, HEADERS, ms, ns) && SameMember(BodyAlike, BODY, ms, ns)
    ensures Read(Find(ms, HEADERS), EvalHeaders, None) == Read(Find(ns, HEADERS), EvalHeaders, None)
    ensures Read(Find(ms, BODY), EvalPayload, None) == Read(Find(ns, BODY), EvalPayload, None)
  {
    hide EvalHeaders, EvalPayload, HeadersAlike, BodyAlike, Find;
    if Find(ms, HEADERS).Some? { HeaderListsMeanTheSame(Find(ms, HEADERS).value, Find(ns, HEADERS).value); }
    if Find(ms, BODY).Some? { BodiesMeanTheSame(Find(ms, BODY).value, Find(ns, BODY).value); }
  }

  lemma ResponsesMeanTheSame(v: Json, w: Json)
    requires ResponseAlike(v, w)
    ensures EvalResponse(v) == EvalResponse(w)
  {
    hide EvalText, EvalUint, EvalHeaders, EvalPayload, Find, Once, LeafAlike, HeadersAlike, BodyAlike, EvalResponse, FinishResponse;
    ResponseFromKnown(v);
    ResponseFromKnown(w);
    LeafReadsTheSame(SCHEMA_VERSION, v.members, w.members);
    LeafReadsTheSame(REQUEST_ID, v.members, w.members);
    LeafReadsTheSame(STATUS, v.members, w.members);
    PartsReadTheSame(v.members, w.members);
  }

  /** Two texts of alike envelopes give the same result: member order, whitespace, string spelling and
      unknown members do not matter, in the envelope, in a header or in the body. */
  lemma OrderDoesNotMatter(w1: Bytes, t1: Json, rest1: Bytes, w2: Bytes, t2: Json, rest2: Bytes)
    requires AllWs(w1) && AllWs(w2) && ResponseAlike(t1, t2)
    ensures ParseResponse(w1 + Print(t1) + rest1) == ParseResponse(w2 + Print(t2) + rest2)
  {
    hide ParseResponse, Print, EvalResponse, SameMember, Once;
    ResponseParsed(w1, t1, rest1);
    ResponseParsed(w2, t2, rest2);
    ResponsesMeanTheSame(t1, t2);
  }
}
