/**
 The effects a reducer asks its host for: stream payloads, the key-value store, and
 the byte count of effect results.
 */
module HttpEffects {
  import opened Words
  import opened KeyOrder
  import opened CanonJson
  import Base64
  import JsonText

  type Blob = s: Text | |s| < TWO64

  datatype Diag = Diag(code: string, error: bool)

  predicate HasError(ds: seq<Diag>) { exists i :: 0 <= i < |ds| && ds[i].error }

  const ID := Ascii("id")
  const TYPE := Ascii("type")
  const OK := Ascii("ok")
  const KEY := Ascii("key")
  const FOUND := Ascii("found")
  const VALUE := Ascii("value")
  const WRITTEN := Ascii("written")
  const EMITTED := Ascii("emitted")
  const ERROR := Ascii("error")
  const UNIX_MS := Ascii("unix_ms")
  const RESPONSE := Ascii("response")
  const BODY := Ascii("body")
  const BYTES_LEN := Ascii("bytes_len")
  const BASE64 := Ascii("base64")
  const TEXT := Ascii("text")

  const KV_GET := Ascii("kv.get")
  const KV_PUT := Ascii("kv.put")
  const LOG_EMIT := Ascii("log.emit")
  const TIME_NOW := Ascii("time.now")
  const HTTP_FETCH := Ascii("http.fetch")

  const DEFAULT_ID := Ascii("eff0")
  const CLOCK_DENIED := Ascii("time.now denied by capabilities")
  const UNKNOWN_EFFECT := Ascii("unknown effect type")

  const KV_IO_FAILED := "X07WASM_HTTP_EFFECT_KV_IO_FAILED"
  const CAPS_CLOCK_DENIED := "X07WASM_CAPS_CLOCK_DENIED"
  const EFFECT_SCHEMA_INVALID := "X07WASM_HTTP_EFFECT_SCHEMA_INVALID"

  // ---------- reading JSON values ----------

  function Lookup(ms: seq<Field>, key: Text): Option<Value> {
    if ms == [] then None
    else if ms[0].key == key then Some(ms[0].value)
    else Lookup(ms[1..], key)
  }

  function Get(v: Value, key: Text): Option<Value> { if v.Obj? then Lookup(v.members, key) else None }

  function GetOrNull(v: Value, key: Text): Value {
    var m := Get(v, key);
    if m.Some? then m.value else Null
  }

  function AsText(v: Option<Value>, otherwise: Text): Text {
    if v.Some? && v.value.Str? then v.value.s else otherwise
  }

  function AsU64(v: Option<Value>): u64 { if v.Some? && v.value.Number? then v.value.n else 0 }

  // ---------- stream payloads ----------

  function BytesToPayload(bytes: Blob): Value {
    Obj([Member(BYTES_LEN, Number(|bytes|)), Member(BASE64, Str(Base64.Encode(bytes)))]
        + if JsonText.IsUtf8(bytes) then [Member(TEXT, Str(bytes))] else [])
  }

  function BytesToPayloadCompact(bytes: Blob): Value {
    Obj([Member(BYTES_LEN, Number(|bytes|))]
        + if bytes == [] then []
          else if JsonText.IsUtf8(bytes) then [Member(TEXT, Str(bytes))]
          else [Member(BASE64, Str(Base64.Encode(bytes)))])
  }

  /** base64 wins over text; either must have the stated length. None is a decode error. */
  function PayloadToBytes(payload: Value): Option<Blob> {
    var len := AsU64(Get(payload, BYTES_LEN));
    var b64, text := Get(payload, BASE64), Get(payload, TEXT);
    if b64.Some? && b64.value.Str? then
      var bytes := Base64.StdDecode(b64.value.s);
      if bytes.None? || |bytes.value| != len then None else Some(bytes.value)
    else if text.Some? && text.value.Str? then
      if |text.value.s| != len then None else Some(text.value.s)
    else if len == 0 then Some([]) else None
  }

  /** Both ways of writing bytes are read back. */
  lemma PayloadRoundTrip(bytes: Blob)
    ensures PayloadToBytes(BytesToPayload(bytes)) == Some(bytes)
    ensures PayloadToBytes(BytesToPayloadCompact(bytes)) == Some(bytes)
  {
    hide Base64.Encode, Base64.StdDecode, JsonText.IsUtf8;
    Base64.StdDecodeIff(Base64.Encode(bytes), bytes);
    ReadPayload(bytes, [Member(BASE64, Str(Base64.Encode(bytes)))]
      + if JsonText.IsUtf8(bytes) then [Member(TEXT, Str(bytes))] else []);
    ReadPayload(bytes, if bytes == [] then [] else [Member(TEXT, Str(bytes))]);
    ReadPayload(bytes, [Member(BASE64, Str(Base64.Encode(bytes)))]);
    if bytes == [] { assert JsonText.IsUtf8(bytes) || !JsonText.IsUtf8(bytes); }
    assert BytesToPayload(bytes).members
        == [Member(BYTES_LEN, Number(|bytes|))] + ([Member(BASE64, Str(Base64.Encode(bytes)))]
           + if JsonText.IsUtf8(bytes) then [Member(TEXT, Str(bytes))] else []);
  }

  lemma ReadPayload(bytes: Blob, more: seq<Field>)
    requires |more| <= 2
    requires forall m :: m in more ==> m.key == BASE64 || m.key == TEXT
    ensures
      var v := Obj([Member(BYTES_LEN, Number(|bytes|))] + more);
      && AsU64(Get(v, BYTES_LEN)) == |bytes|
      && Get(v, BASE64) == Lookup(more, BASE64)
      && Get(v, TEXT) == Lookup(more, TEXT)
      && (more == [] ==> Lookup(more, BASE64).None? && Lookup(more, TEXT).None?)
      && (|more| >= 1 ==> (if more[0].key == BASE64 then Lookup(more, BASE64) == Some(more[0].value)
                           else Lookup(more, TEXT) == Some(more[0].value)))
      && (|more| == 1 ==> (if more[0].key == TEXT then Lookup(more, BASE64).None? else Lookup(more, TEXT).None?))
  {
    var ms := [Member(BYTES_LEN, Number(|bytes|))] + more;
    assert ms[1..] == more;
    assert |more| == 1 ==> more[1..] == [] && more[0] in more;
    assert |more| >= 1 ==> more[0] in more;
  }

  /** A payload is decoded by its base64 member, else by its text member, else as nothing; the length must agree. */
  lemma PayloadIff(payload: Value, bytes: Blob)
    ensures PayloadToBytes(payload) == Some(bytes) <==>
      var len := Get(payload, Ascii("bytes_len"));
      var b64, text := Get(payload, Ascii("base64")), Get(payload, Ascii("text"));
      && |bytes| == (if len.Some? && len.value.Number? then len.value.n else 0)
      && (if b64.Some? && b64.value.Str? then b64.value.s == Base64.Encode(bytes)
          else if text.Some? && text.value.Str? then text.value.s == bytes
          else bytes == [])
  {
    hide Get, Base64.Encode, Base64.StdDecode;
    var b64 := Get(payload, BASE64);
    if b64.Some? && b64.value.Str? { Base64.StdDecodeIff(b64.value.s, bytes); }
  }

  /** What the two spellings of a payload say, member by member. */
  lemma PayloadSays(bytes: Blob)
    ensures
      var p := BytesToPayload(bytes);
      && Get(p, Ascii("bytes_len")) == Some(Number(|bytes|))
      && Get(p, Ascii("base64")) == Some(Str(Base64.Encode(bytes)))
      && Get(p, Ascii("text")) == if JsonText.IsUtf8(bytes) then Some(Str(bytes)) else None
  {
    hide Base64.Encode, JsonText.IsUtf8, Lookup;
    PayloadNamesDiffer();
    var ms := BytesToPayload(bytes).members;
    UpToThree(ms, BYTES_LEN);
    UpToThree(ms, BASE64);
    UpToThree(ms, TEXT);
  }

  lemma CompactPayloadSays(bytes: Blob)
    ensures
      var c := BytesToPayloadCompact(bytes);
      && Get(c, Ascii("bytes_len")) == Some(Number(|bytes|))
      && Get(c, Ascii("base64")) == (if JsonText.IsUtf8(bytes) then None else Some(Str(Base64.Encode(bytes))))
      && Get(c, Ascii("text")) == if JsonText.IsUtf8(bytes) && bytes != [] then Some(Str(bytes)) else None
  {
    assert JsonText.IsUtf8([]) by { NothingIsUtf8(); }
    hide Base64.Encode, JsonText.IsUtf8, Lookup;
    PayloadNamesDiffer();
    var ms := BytesToPayloadCompact(bytes).members;
    UpToThree(ms, BYTES_LEN);
    UpToThree(ms, BASE64);
    UpToThree(ms, TEXT);
  }

  lemma PayloadNamesDiffer()
    ensures |BYTES_LEN| == 9 && |BASE64| == 6 && |TEXT| == 4
  {
  }

  lemma NothingIsUtf8()
    ensures JsonText.IsUtf8([])
  {
  }

  lemma UpToThree(ms: seq<Field>, key: Text)
    requires 0 < |ms| <= 3
    ensures Lookup(ms, key) ==
      if ms[0].key == key then Some(ms[0].value)
      else if |ms| > 1 && ms[1].key == key then Some(ms[1].value)
      else if |ms| > 2 && ms[2].key == key then Some(ms[2].value)
      else None
  {
    hide Lookup;
    LookupAt(ms, 0, key);
    if |ms| > 1 { LookupAt(ms, 1, key); }
    if |ms| > 2 { LookupAt(ms, 2, key); }
    assert ms[0..] == ms && ms[|ms|..] == [];
    assert Lookup([], key).None? by { LookupNothing(key); }
  }

  lemma LookupNothing(key: Text)
    ensures Lookup([], key).None?
  {
  }

  // ---------- one effect ----------

  /** The outside world at each effect call; `fetch` stands for a whole http.fetch. */
  datatype World = World(clocksDenied: bool, now: nat -> u64, fetch: (nat, Value) -> Fetched, putError: Value -> Text)

  datatype Fetched = Fetched(result: Value, diags: seq<Diag>, usedNetwork: bool)

  datatype EffectState = EffectState(kv: map<Text, Blob>, usesNetwork: bool, usesOsTime: bool, calls: nat)

  datatype Kind = KvGet | KvPut | LogEmit | TimeNow | HttpFetch | Unknown

  function KindOf(eff: Value): Kind {
    var typ := AsText(Get(eff, TYPE), []);
    if typ == KV_GET then KvGet
    else if typ == KV_PUT then KvPut
    else if typ == LOG_EMIT then LogEmit
    else if typ == TIME_NOW then TimeNow
    else if typ == HTTP_FETCH then HttpFetch
    else Unknown
  }

  function IdOf(eff: Value): Text { AsText(Get(eff, ID), DEFAULT_ID) }

  function KeyOf(eff: Value): Text { AsText(Get(eff, KEY), []) }

  function ResultOf(eff: Value, ok: bool, more: seq<Field>): Value {
    Obj([Member(ID, Str(IdOf(eff))), Member(TYPE, Str(AsText(Get(eff, TYPE), []))), Member(OK, Bool(ok))] + more)
  }

  /** What a kv.get of a stored value, or of a missing key, answers. */
  function GetResult(eff: Value, stored: Option<Blob>): Value {
    if stored.Some? then
      ResultOf(eff, true, [Member(FOUND, Bool(true)), Member(VALUE, BytesToPayload(stored.value))])
    else ResultOf(eff, true, [Member(FOUND, Bool(false)), Member(VALUE, Null)])
  }

  function Stored(kv: map<Text, Blob>, key: Text): Option<Blob> { if key in kv then Some(kv[key]) else None }

  datatype Executed = Executed(result: Value, after: EffectState, diags: seq<Diag>)

  function Execute(w: World, es: EffectState, eff: Value): Executed {
    var next := es.(calls := es.calls + 1);
    match KindOf(eff)
    case KvGet => Executed(GetResult(eff, Stored(es.kv, KeyOf(eff))), next, [])
    case KvPut =>
      var value := GetOrNull(eff, VALUE);
      var bytes := PayloadToBytes(value);
      if bytes.Some? then
        Executed(ResultOf(eff, true, [Member(WRITTEN, Bool(true))]), next.(kv := es.kv[KeyOf(eff) := bytes.value]), [])
      else
        Executed(ResultOf(eff, false, [Member(ERROR, Str(w.putError(value)))]), next, [Diag(KV_IO_FAILED, true)])
    case LogEmit => Executed(ResultOf(eff, true, [Member(EMITTED, Bool(true))]), next, [])
    case TimeNow =>
      if w.clocksDenied then
        Executed(ResultOf(eff, false, [Member(ERROR, Str(CLOCK_DENIED))]), next, [Diag(CAPS_CLOCK_DENIED, true)])
      else
        Executed(ResultOf(eff, true, [Member(UNIX_MS, Number(w.now(es.calls)))]), next.(usesOsTime := true), [])
    case HttpFetch =>
      var f := w.fetch(es.calls, eff);
      Executed(f.result, next.(usesNetwork := es.usesNetwork || f.usedNetwork), f.diags)
    case Unknown =>
      Executed(ResultOf(eff, false, [Member(ERROR, Str(UNKNOWN_EFFECT))]), next, [Diag(EFFECT_SCHEMA_INVALID, true)])
  }

  // ---------- what each effect answers ----------

  ghost predicate Says(v: Value, key: string, x: Value) { Get(v, Ascii(key)) == Some(x) }

  ghost predicate OfType(eff: Value, name: string) { Says(eff, "type", Str(Ascii(name))) }

  /** The answer repeats the effect's id, or `eff0`, and its type, and says whether it succeeded. */
  ghost predicate AnswerTo(eff: Value, r: Value, ok: bool) {
    && Says(r, "ok", Bool(ok))
    && Says(r, "id", Str(AsText(Get(eff, Ascii("id")), Ascii("eff0"))))
    && Says(r, "type", Str(AsText(Get(eff, Ascii("type")), [])))
  }

  lemma {:induction false} LookupJoin(a: seq<Field>, b: seq<Field>, key: Text)
    ensures Lookup(a + b, key) == if Lookup(a, key).Some? then Lookup(a, key) else Lookup(b, key)
    decreases |a|
  {
    if a == [] {
      assert a + b == b;
    } else {
      assert (a + b)[1..] == a[1..] + b;
      LookupJoin(a[1..], b, key);
    }
  }

  lemma ResultHead(eff: Value, ok: bool, more: seq<Field>)
    ensures AnswerTo(eff, ResultOf(eff, ok, more), ok)
    ensures forall key :: key !in {ID, TYPE, OK} ==> Get(ResultOf(eff, ok, more), key) == Lookup(more, key)
  {
    hide Lookup, AsText;
    assert ID[0] == 'i' as int && OK[0] == 'o' as int;
    var head := ResultOf(eff, ok, []).members;
    var r := ResultOf(eff, ok, more);
    assert r.members == head + more;
    forall key ensures Get(r, key) ==
      if key == ID then Some(head[0].value) else if key == TYPE then Some(head[1].value)
      else if key == OK then Some(head[2].value) else Lookup(more, key)
    {
      LookupJoin(head, more, key);
      UpToThree(head, key);
    }
  }

  lemma AnswerFields(eff: Value, ok: bool, more: seq<Field>)
    requires 0 < |more| <= 2 && more[0].key !in {ID, TYPE, OK}
    requires |more| == 2 ==> more[1].key !in {ID, TYPE, OK} && more[0].key != more[1].key
    ensures
      var r := ResultOf(eff, ok, more);
      && AnswerTo(eff, r, ok) && Get(r, more[0].key) == Some(more[0].value)
      && (|more| == 2 ==> Get(r, more[1].key) == Some(more[1].value))
      && forall key :: key !in {ID, TYPE, OK} && (forall m :: m in more ==> m.key != key) ==> Get(r, key).None?
  {
    hide Lookup, AnswerTo, ResultOf;
    ResultHead(eff, ok, more);
    forall key ensures Lookup(more, key) ==
      if more[0].key == key then Some(more[0].value)
      else if |more| > 1 && more[1].key == key then Some(more[1].value) else None
    {
      UpToThree(more, key);
    }
    assert more[0] in more && (|more| == 2 ==> more[1] in more);
  }

  /** The five types by name; anything else is unknown. */
  lemma KindsByName(eff: Value)
    ensures KindOf(eff).KvGet? <==> OfType(eff, "kv.get")
    ensures KindOf(eff).KvPut? <==> OfType(eff, "kv.put")
    ensures KindOf(eff).LogEmit? <==> OfType(eff, "log.emit")
    ensures KindOf(eff).TimeNow? <==> OfType(eff, "time.now")
    ensures KindOf(eff).HttpFetch? <==> OfType(eff, "http.fetch")
    ensures KeyOf(eff) == AsText(Get(eff, Ascii("key")), [])
  {
    hide Get;
    TypesDiffer();
  }

  lemma TypesDiffer()
    ensures |KV_GET| == |KV_PUT| == 6 && |LOG_EMIT| == |TIME_NOW| == 8 && |HTTP_FETCH| == 10
    ensures KV_GET != KV_PUT && LOG_EMIT != TIME_NOW
  {
    assert KV_GET[3] == 'g' as int && KV_PUT[3] == 'p' as int && LOG_EMIT[0] == 'l' as int && TIME_NOW[0] == 't' as int;
  }

  lemma AnswerNames()
    ensures {FOUND, VALUE, WRITTEN, EMITTED, ERROR, UNIX_MS} !! {ID, TYPE, OK}
    ensures FOUND != VALUE && UNIX_MS != ERROR
  {
    assert FOUND[0] == 'f' as int && VALUE[0] == 'v' as int;
    assert |FOUND| == |VALUE| == |ERROR| == 5 && |WRITTEN| == |EMITTED| == |UNIX_MS| == 7;
    assert |ID| == |OK| == 2 && |TYPE| == 4;
  }

  /** A kv.get says whether the key is held and gives its bytes, and changes nothing. */
  lemma GetAnswers(w: World, es: EffectState, eff: Value)
    requires OfType(eff, "kv.get")
    ensures
      var x := Execute(w, es, eff);
      var key := AsText(Get(eff, Ascii("key")), []);
      && x.after == es.(calls := es.calls + 1) && x.diags == [] && AnswerTo(eff, x.result, true)
      && Says(x.result, "found", Bool(key in es.kv))
      && Get(x.result, Ascii("value")).Some?
      && var value := Get(x.result, Ascii("value")).value;
         if key in es.kv then PayloadToBytes(value) == Some(es.kv[key]) else value == Null
  {
    hide Get, PayloadToBytes, BytesToPayload, ResultOf, AnswerTo, KindOf, AsText;
    KindsByName(eff);
    AnswerNames();
    var held := Stored(es.kv, KeyOf(eff));
    if held.Some? {
      PayloadRoundTrip(held.value);
      AnswerFields(eff, true, [Member(FOUND, Bool(true)), Member(VALUE, BytesToPayload(held.value))]);
    } else {
      AnswerFields(eff, true, [Member(FOUND, Bool(false)), Member(VALUE, Null)]);
    }
  }

  /** A kv.put of a payload that decodes stores its bytes under its key alone; otherwise it fails and stores nothing. */
  lemma PutAnswers(w: World, es: EffectState, eff: Value)
    requires OfType(eff, "kv.put")
    ensures
      var x := Execute(w, es, eff);
      var key := AsText(Get(eff, Ascii("key")), []);
      var value := GetOrNull(eff, Ascii("value"));
      var bytes := PayloadToBytes(value);
      && AnswerTo(eff, x.result, bytes.Some?)
      && x.after == es.(calls := es.calls + 1, kv := if bytes.Some? then es.kv[key := bytes.value] else es.kv)
      && (bytes.Some? ==> Says(x.result, "written", Bool(true)) && x.diags == [])
      && (bytes.None? ==> Says(x.result, "error", Str(w.putError(value)))
                          && x.diags == [Diag("X07WASM_HTTP_EFFECT_KV_IO_FAILED", true)])
  {
    hide Get, PayloadToBytes, ResultOf, AnswerTo, KindOf, AsText, GetOrNull;
    KindsByName(eff);
    AnswerNames();
    AnswerFields(eff, true, [Member(WRITTEN, Bool(true))]);
    AnswerFields(eff, false, [Member(ERROR, Str(w.putError(GetOrNull(eff, VALUE))))]);
  }

  /** A time.now gives the time exactly when the clocks are not denied, and only then counts as a use of the clock. */
  lemma TimeAnswers(w: World, es: EffectState, eff: Value)
    requires OfType(eff, "time.now")
    ensures
      var x := Execute(w, es, eff);
      && AnswerTo(eff, x.result, !w.clocksDenied)
      && Get(x.result, Ascii("unix_ms")) == (if w.clocksDenied then None else Some(Number(w.now(es.calls))))
      && (w.clocksDenied ==> Says(x.result, "error", Str(Ascii("time.now denied by capabilities"))))
      && x.diags == (if w.clocksDenied then [Diag("X07WASM_CAPS_CLOCK_DENIED", true)] else [])
      && x.after == es.(calls := es.calls + 1, usesOsTime := es.usesOsTime || !w.clocksDenied)
  {
    hide Get, ResultOf, AnswerTo, KindOf;
    KindsByName(eff);
    AnswerNames();
    AnswerFields(eff, true, [Member(UNIX_MS, Number(w.now(es.calls)))]);
    AnswerFields(eff, false, [Member(ERROR, Str(CLOCK_DENIED))]);
  }

  /** A log.emit succeeds; an effect of no known type fails with an error. Neither changes anything. */
  lemma OtherAnswers(w: World, es: EffectState, eff: Value)
    requires !OfType(eff, "kv.get") && !OfType(eff, "kv.put") && !OfType(eff, "time.now") && !OfType(eff, "http.fetch")
    ensures
      var x := Execute(w, es, eff);
      var log := OfType(eff, "log.emit");
      && AnswerTo(eff, x.result, log) && x.after == es.(calls := es.calls + 1)
      && (if log then Says(x.result, "emitted", Bool(true)) else Says(x.result, "error", Str(Ascii("unknown effect type"))))
      && x.diags == if log then [] else [Diag("X07WASM_HTTP_EFFECT_SCHEMA_INVALID", true)]
  {
    hide Get, ResultOf, AnswerTo, KindOf;
    KindsByName(eff);
    AnswerNames();
    AnswerFields(eff, true, [Member(EMITTED, Bool(true))]);
    AnswerFields(eff, false, [Member(ERROR, Str(UNKNOWN_EFFECT))]);
  }

  /** An http.fetch is the outside world's; it only adds to what was used. */
  lemma FetchAnswers(w: World, es: EffectState, eff: Value)
    requires OfType(eff, "http.fetch")
    ensures
      var x := Execute(w, es, eff);
      var f := w.fetch(es.calls, eff);
      && x.result == f.result && x.diags == f.diags
      && x.after == es.(calls := es.calls + 1, usesNetwork := es.usesNetwork || f.usedNetwork)
  {
    hide Get, KindOf;
    KindsByName(eff);
  }

  // ---------- a list of effects ----------

  datatype Run = Run(results: seq<Value>, after: EffectState, diags: seq<Diag>)

  function ExecuteAll(w: World, es: EffectState, effs: seq<Value>): (r: Run)
    ensures |r.results| == |effs|
    decreases |effs|
  {
    if effs == [] then Run([], es, [])
    else
      var x := Execute(w, es, effs[0]);
      var rest := ExecuteAll(w, x.after, effs[1..]);
      Run([x.result] + rest.results, rest.after, x.diags + rest.diags)
  }

  /** The bytes of the last successful kv.put of a key. */
  function LastPut(effs: seq<Value>, key: Text): Option<Blob> {
    if effs == [] then None
    else
      var later := LastPut(effs[1..], key);
      if later.Some? then later
      else if KindOf(effs[0]).KvPut? && KeyOf(effs[0]) == key then PayloadToBytes(GetOrNull(effs[0], VALUE))
      else None
  }

  /** After any effects, each key holds its last successful put, or what it held before. */
  lemma {:induction false} StoreHoldsLastPut(w: World, es: EffectState, effs: seq<Value>, key: Text)
    ensures
      var put := LastPut(effs, key);
      Stored(ExecuteAll(w, es, effs).after.kv, key) == if put.Some? then put else Stored(es.kv, key)
    decreases |effs|
  {
    hide KindOf, PayloadToBytes, GetOrNull, KeyOf, ResultOf, GetResult;
    if effs != [] { StoreHoldsLastPut(w, Execute(w, es, effs[0]).after, effs[1..], key); }
  }

  /** A kv.get after any effects answers with a payload that reads back as the last bytes put. */
  lemma GetReadsLastPut(w: World, es: EffectState, effs: seq<Value>, get: Value)
    requires KindOf(get).KvGet?
    ensures
      var put := LastPut(effs, KeyOf(get));
      var held := if put.Some? then put else Stored(es.kv, KeyOf(get));
      && Execute(w, ExecuteAll(w, es, effs).after, get).result == GetResult(get, held)
      && (held.Some? ==> PayloadToBytes(BytesToPayload(held.value)) == held)
  {
    hide KindOf, PayloadToBytes, GetOrNull, KeyOf, ResultOf, GetResult, BytesToPayload, ExecuteAll, LastPut;
    StoreHoldsLastPut(w, es, effs, KeyOf(get));
    var put := LastPut(effs, KeyOf(get));
    var held := if put.Some? then put else Stored(es.kv, KeyOf(get));
    if held.Some? { PayloadRoundTrip(held.value); }
  }

  // ---------- the byte budget of one step's results ----------

  function PayloadLen(holder: Option<Value>): u64 {
    if holder.Some? then AsU64(Get(holder.value, BYTES_LEN)) else 0
  }

  function ResultPayloadBytes(result: Value): u64 {
    if Get(result, OK) != Some(Bool(true)) then 0
    else
      var typ := AsText(Get(result, TYPE), []);
      if typ == KV_GET then PayloadLen(Get(result, VALUE))
      else if typ == HTTP_FETCH then
        var response := Get(result, RESPONSE);
        if response.Some? then PayloadLen(Get(response.value, BODY)) else 0
      else 0
  }

  /** A found value counts with its length. */
  lemma FoundValueCounts(eff: Value, bytes: Blob)
    requires KindOf(eff).KvGet?
    ensures ResultPayloadBytes(GetResult(eff, Some(bytes))) == |bytes|
    ensures ResultPayloadBytes(GetResult(eff, None)) == 0
  {
    hide Base64.Encode, JsonText.IsUtf8;
    ResultFields(eff, true, Member(FOUND, Bool(true)), Member(VALUE, BytesToPayload(bytes)));
    ResultFields(eff, true, Member(FOUND, Bool(false)), Member(VALUE, Null));
  }

  /** A fetched body counts with its length; a result that is not ok, or of another type, counts nothing. */
  lemma CountedBytes(result: Value, bytes: Blob)
    ensures !Says(result, "ok", Bool(true)) ==> ResultPayloadBytes(result) == 0
    ensures !OfType(result, "kv.get") && !OfType(result, "http.fetch") ==> ResultPayloadBytes(result) == 0
    ensures OfType(result, "http.fetch") && Says(result, "ok", Bool(true))
      && Says(GetOrNull(result, Ascii("response")), "body", BytesToPayload(bytes))
      ==> ResultPayloadBytes(result) == |bytes|
    ensures OfType(result, "kv.get") && Says(result, "ok", Bool(true)) && Says(result, "value", BytesToPayload(bytes))
      ==> ResultPayloadBytes(result) == |bytes|
  {
    PayloadSays(bytes);
    NullSaysNothing();
    TypesDiffer();
    hide Get, BytesToPayload;
  }

  lemma NullSaysNothing()
    ensures forall key :: Get(Null, key).None?
  {
  }

  lemma ResultFields(eff: Value, ok: bool, m: Field, n: Field)
    requires m.key == FOUND && n.key == VALUE
    ensures
      var r := ResultOf(eff, ok, [m, n]);
      Get(r, OK) == Some(Bool(ok)) && Get(r, TYPE) == Some(Str(AsText(Get(eff, TYPE), []))) && Get(r, VALUE) == Some(n.value)
  {
    hide Lookup;
    var ms := ResultOf(eff, ok, [m, n]).members;
    assert ID[0] == 'i' as int && OK[0] == 'o' as int && FOUND[0] == 'f' as int && VALUE[0] == 'v' as int;
    Lookup5(ms, OK);
    Lookup5(ms, TYPE);
    Lookup5(ms, VALUE);
  }

  lemma Lookup5(ms: seq<Field>, key: Text)
    requires |ms| == 5
    ensures Lookup(ms, key) ==
      if ms[0].key == key then Some(ms[0].value)
      else if ms[1].key == key then Some(ms[1].value)
      else if ms[2].key == key then Some(ms[2].value)
      else if ms[3].key == key then Some(ms[3].value)
      else if ms[4].key == key then Some(ms[4].value)
      else None
  {
    LookupAt(ms, 0, key);
    LookupAt(ms, 1, key);
    LookupAt(ms, 2, key);
    LookupAt(ms, 3, key);
    LookupAt(ms, 4, key);
    assert ms[0..] == ms && ms[5..] == [];
  }

  lemma LookupAt(ms: seq<Field>, i: nat, key: Text)
    requires i < |ms|
    ensures Lookup(ms[i..], key) == if ms[i].key == key then Some(ms[i].value) else Lookup(ms[i + 1..], key)
  {
    assert ms[i..][0] == ms[i] && ms[i..][1..] == ms[i + 1..];
  }

  function SaturatingAdd(x: u64, y: u64): u64 { if x + y < TWO64 then x + y else TWO64 - 1 }

  datatype Bounded = Within(run: Run) | Over(after: EffectState, diags: seq<Diag>)

  /** Runs effects until the result bytes pass the budget; what ran before stays done. */
  function ExecuteWithin(w: World, es: EffectState, effs: seq<Value>, max: u64, used: u64): Bounded
    decreases |effs|
  {
    if effs == [] then Within(Run([], es, []))
    else
      var x := Execute(w, es, effs[0]);
      var used1 := SaturatingAdd(used, ResultPayloadBytes(x.result));
      if used1 > max then Over(x.after, x.diags)
      else
        match ExecuteWithin(w, x.after, effs[1..], max, used1)
        case Within(r) => Within(Run([x.result] + r.results, r.after, x.diags + r.diags))
        case Over(after, diags) => Over(after, x.diags + diags)
  }

  function TotalBytes(results: seq<Value>): nat {
    if results == [] then 0 else ResultPayloadBytes(results[0]) + TotalBytes(results[1..])
  }

  /** The saturating count never passes the largest budget. */
  predicate Affordable(total: nat, max: u64) { total <= max || max == TWO64 - 1 }

  /**
   All effects run exactly when their true byte total fits the budget (the largest u64
   budget admits everything), and then they run as without a budget.
   */
  lemma {:induction false} BudgetIsExact(w: World, es: EffectState, effs: seq<Value>, max: u64, used: u64)
    requires used <= max
    ensures
      var all := ExecuteAll(w, es, effs);
      var fits := Affordable(used + TotalBytes(all.results), max);
      && (ExecuteWithin(w, es, effs, max, used).Within? <==> fits)
      && (fits ==> ExecuteWithin(w, es, effs, max, used) == Within(all))
    decreases |effs|
  {
    hide Execute, ResultPayloadBytes;
    if effs != [] {
      var x := Execute(w, es, effs[0]);
      var all := ExecuteAll(w, es, effs);
      assert all.results[1..] == ExecuteAll(w, x.after, effs[1..]).results;
      var used1 := SaturatingAdd(used, ResultPayloadBytes(x.result));
      if used1 <= max { BudgetIsExact(w, x.after, effs[1..], max, used1); }
    }
  }

  /** Over budget, exactly the effects up to the first total that is too large have run. */
  lemma {:induction false} OverStops(w: World, es: EffectState, effs: seq<Value>, max: u64, used: u64) returns (k: nat)
    requires used <= max && ExecuteWithin(w, es, effs, max, used).Over?
    ensures k < |effs|
    ensures
      var over := ExecuteWithin(w, es, effs, max, used);
      var ran := ExecuteAll(w, es, effs[..k + 1]);
      && over.after == ran.after && over.diags == ran.diags
      && !Affordable(used + TotalBytes(ran.results), max)
      && Affordable(used + TotalBytes(ran.results[..k]), max)
    decreases |effs|
  {
    hide Execute, ResultPayloadBytes;
    var x := Execute(w, es, effs[0]);
    var used1 := SaturatingAdd(used, ResultPayloadBytes(x.result));
    if used1 > max {
      k := 0;
      OneEffect(w, es, effs[0]);
      assert effs[..1] == [effs[0]];
    } else {
      var j := OverStops(w, x.after, effs[1..], max, used1);
      k := j + 1;
      FirstThenRest(w, es, effs, j + 1, used);
    }
  }

  lemma OneEffect(w: World, es: EffectState, eff: Value)
    ensures
      var x := Execute(w, es, eff);
      var ran := ExecuteAll(w, es, [eff]);
      && ran.results == [x.result] && ran.after == x.after && ran.diags == x.diags
      && ran.results[..0] == [] && TotalBytes(ran.results) == ResultPayloadBytes(x.result)
  {
    hide Execute, ResultPayloadBytes;
    assert [eff][1..] == [];
    assert ExecuteAll(w, Execute(w, es, eff).after, []) == Run([], Execute(w, es, eff).after, []);
    var x := Execute(w, es, eff);
    assert x.diags + [] == x.diags && [x.result] + [] == [x.result] && [x.result][1..] == [];
  }

  lemma FirstThenRest(w: World, es: EffectState, effs: seq<Value>, n: nat, used: nat)
    requires 0 < n < |effs|
    ensures
      var x := Execute(w, es, effs[0]);
      var rest := ExecuteAll(w, x.after, effs[1..][..n]);
      var all := ExecuteAll(w, es, effs[..n + 1]);
      && all.after == rest.after && all.diags == x.diags + rest.diags && all.results == [x.result] + rest.results
      && TotalBytes(all.results) == ResultPayloadBytes(x.result) + TotalBytes(rest.results)
      && TotalBytes(all.results[..n]) == ResultPayloadBytes(x.result) + TotalBytes(rest.results[..n - 1])
  {
    hide Execute, ResultPayloadBytes;
    assert effs[..n + 1][1..] == effs[1..][..n];
    var x := Execute(w, es, effs[0]);
    var rest := ExecuteAll(w, x.after, effs[1..][..n]).results;
    var all := [x.result] + rest;
    assert all[1..] == rest && all[..n] == [x.result] + rest[..n - 1] && all[..n][1..] == rest[..n - 1];
  }

  // ---------- the host object ----------

  class HttpEffectState {
    var kv: map<Text, Blob>
    var usesNetwork: bool
    var usesOsTime: bool
    var calls: nat

    ghost function State(): EffectState
      reads this
    {
      EffectState(kv, usesNetwork, usesOsTime, calls)
    }

    constructor ()
      ensures State() == EffectState(map[], false, false, 0)
    {
      kv, usesNetwork, usesOsTime, calls := map[], false, false, 0;
    }

    method ExecuteEffect(w: World, eff: Value, diagnostics: seq<Diag>) returns (result: Value, diags: seq<Diag>)
      modifies this
      ensures Executed(result, State(), diags) == (
        var x := Execute(w, old(State()), eff);
        x.(diags := diagnostics + x.diags))
    {
      hide ResultOf, KindOf, PayloadToBytes, BytesToPayload, GetOrNull, KeyOf;
      diags := diagnostics;
      var at := calls;
      calls := calls + 1;
      match KindOf(eff) {
      case KvGet =>
        var key := KeyOf(eff);
        if key in kv {
          result := ResultOf(eff, true, [Member(FOUND, Bool(true)), Member(VALUE, BytesToPayload(kv[key]))]);
        } else {
          result := ResultOf(eff, true, [Member(FOUND, Bool(false)), Member(VALUE, Null)]);
        }
      case KvPut =>
        var value := GetOrNull(eff, VALUE);
        var bytes := PayloadToBytes(value);
        if bytes.Some? {
          kv := kv[KeyOf(eff) := bytes.value];
          result := ResultOf(eff, true, [Member(WRITTEN, Bool(true))]);
        } else {
          diags := diags + [Diag(KV_IO_FAILED, true)];
          result := ResultOf(eff, false, [Member(ERROR, Str(w.putError(value)))]);
        }
      case LogEmit =>
        result := ResultOf(eff, true, [Member(EMITTED, Bool(true))]);
      case TimeNow =>
        if w.clocksDenied {
          diags := diags + [Diag(CAPS_CLOCK_DENIED, true)];
          result := ResultOf(eff, false, [Member(ERROR, Str(CLOCK_DENIED))]);
        } else {
          usesOsTime := true;
          result := ResultOf(eff, true, [Member(UNIX_MS, Number(w.now(at)))]);
        }
      case HttpFetch =>
        var f := w.fetch(at, eff);
        usesNetwork := usesNetwork || f.usedNetwork;
        diags := diags + f.diags;
        result := f.result;
      case Unknown =>
        diags := diags + [Diag(EFFECT_SCHEMA_INVALID, true)];
        result := ResultOf(eff, false, [Member(ERROR, Str(UNKNOWN_EFFECT))]);
      }
    }
  }
}
