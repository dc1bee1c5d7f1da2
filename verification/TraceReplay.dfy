/**
 Replaying a recorded HTTP trace: each dispatch is sent to the core again and the frame
 must match up to the order of object members.
 */
module TraceReplay {
  import opened Words
  import opened KeyOrder
  import opened CanonJson
  import opened HttpEffects
  import opened HttpReducer

  const TEST_CALL_FAILED := "X07WASM_HTTP_TEST_CALL_FAILED"
  const FRAME_MISMATCH := "X07WASM_HTTP_TEST_FRAME_MISMATCH"

  datatype Failure = Failure(step: nat, env: Value, expected: Value, actual: Option<Value>)

  function StepsOf(trace: Value): seq<Value> { ItemsOf(Get(trace, STEPS)) }

  /** The core answers the step's dispatch with a frame of the same canonical bytes. */
  predicate StepPasses(h: Host, step: Value) {
    var asked := Ask(h, EnvOf(step), TEST_CALL_FAILED);
    asked.Frame? && CanonicalBytes(h, FrameOf(step)) == CanonicalBytes(h, asked.frame)
  }

  ghost predicate Accepts(h: Host, steps: seq<Value>) { forall i :: 0 <= i < |steps| ==> StepPasses(h, steps[i]) }

  /** The code: `ok`, or the first failing step with an error reported. */
  method RunTraceCase(h: Host, trace: Value, traceDiags: seq<Diag>, diagnostics: seq<Diag>)
    returns (ok: bool, failure: Option<Failure>, diags: seq<Diag>)
    ensures ok <==> Accepts(h, StepsOf(trace))
    ensures ok ==> failure == None && diags == diagnostics + traceDiags
    ensures !ok ==> failure.Some?
    ensures !ok ==>
      var f, steps := failure.value, StepsOf(trace);
      && f.step < |steps| && Accepts(h, steps[..f.step]) && !StepPasses(h, steps[f.step])
      && f.env == EnvOf(steps[f.step]) && f.expected == FrameOf(steps[f.step])
      && diagnostics + traceDiags <= diags && HasError(diags)
      && var asked := Ask(h, f.env, "X07WASM_HTTP_TEST_CALL_FAILED");
         if asked.NoFrame? then f.actual == asked.actual && diags == diagnostics + traceDiags + asked.diags
         else
           && f.actual == Some(asked.frame)
           && diags == diagnostics + traceDiags + [Diag("X07WASM_HTTP_TEST_FRAME_MISMATCH", true)]
  {
    hide Ask;
    diags := diagnostics + traceDiags;
    var steps := StepsOf(trace);
    for i := 0 to |steps|
      invariant Accepts(h, steps[..i]) && diags == diagnostics + traceDiags
    {
      var env, expected := EnvOf(steps[i]), FrameOf(steps[i]);
      var asked := Ask(h, env, TEST_CALL_FAILED);
      if asked.NoFrame? {
        ErrorKept(diags, asked.diags);
        diags := diags + asked.diags;
        return false, Some(Failure(i, env, expected, asked.actual)), diags;
      }
      if CanonicalBytes(h, expected) != CanonicalBytes(h, asked.frame) {
        LeadingError(FRAME_MISMATCH, []);
        ErrorKept(diags, [Diag(FRAME_MISMATCH, true)] + []);
        assert [Diag(FRAME_MISMATCH, true)] + [] == [Diag(FRAME_MISMATCH, true)];
        diags := diags + [Diag(FRAME_MISMATCH, true)];
        return false, Some(Failure(i, env, expected, Some(asked.frame))), diags;
      }
    }
    assert steps[..|steps|] == steps;
    ok, failure := true, None;
  }

  lemma ErrorKept(ds: seq<Diag>, more: seq<Diag>)
    requires HasError(more)
    ensures HasError(ds + more)
  {
    var k :| 0 <= k < |more| && more[k].error;
    assert (ds + more)[|ds| + k].error;
  }

  // ---------- what the libraries are taken to do ----------

  /** The dispatch schema does not look at the order of object members. */
  ghost predicate OrderBlind(h: Host) {
    forall v, w :: WellFormed(v) && WellFormed(w) && Same(v, w) ==>
      (HasError(h.dispatchDiags(v)) <==> HasError(h.dispatchDiags(w)))
  }

  /** Parsed frames and fetched results are maps with distinct keys. */
  ghost predicate Sane(h: Host) {
    && (forall b :: h.read(b).Some? ==> WellFormed(h.read(b).value))
    && (forall n, eff :: WellFormed(h.world.fetch(n, eff).result))
  }

  /** Printing tells canonical values apart. */
  ghost predicate Injective(h: Host) {
    forall v, w :: h.write(Canon(v)) == h.write(Canon(w)) ==> Canon(v) == Canon(w)
  }

  // ---------- acceptance ----------

  /** A step passes exactly when the core's frame is the recorded one up to member order. */
  lemma StepPassesIff(h: Host, step: Value)
    requires Injective(h) && Sane(h) && WellFormed(FrameOf(step))
    ensures StepPasses(h, step) <==>
      exists frame :: AnsweredBy(h, GetOrNull(step, Ascii("env")), frame) && Same(GetOrNull(step, Ascii("frame")), frame)
  {
    assert forall frame :: AskedFor(h, step, frame) ==> WellFormed(frame) by { FramesAreMaps(h, step); }
    hide Same, Canon, WellFormed, Ask, AnsweredBy;
    forall frame ensures AskedFor(h, step, frame) <==> AnsweredBy(h, EnvOf(step), frame) {
      AskIff(h, EnvOf(step), TEST_CALL_FAILED, frame);
    }
    var asked := Ask(h, EnvOf(step), TEST_CALL_FAILED);
    if asked.Frame? {
      assert AskedFor(h, step, asked.frame);
      CanonIff(FrameOf(step), asked.frame);
    }
  }

  ghost predicate AskedFor(h: Host, step: Value, frame: Value) { Ask(h, EnvOf(step), TEST_CALL_FAILED) == Frame(frame) }

  lemma FramesAreMaps(h: Host, step: Value)
    requires Sane(h)
    ensures forall frame :: AskedFor(h, step, frame) ==> WellFormed(frame)
  {
    hide WellFormed, Canon;
  }

  lemma CallFailedCode(h: Host, env: Value, code: string, code2: string)
    ensures Ask(h, env, code).Frame? ==> Ask(h, env, code2) == Ask(h, env, code)
  {
  }

  /** The replayer accepts every trace the loop emits, whatever its run ended with. */
  lemma EmittedTraceIsAccepted(h: Host, request: Value, maxSteps: u32, maxBytes: u64, es: EffectState)
    ensures
      var o := RunLoop(h, request, maxSteps, maxBytes, es);
      StepsOf(TraceDoc(o.steps)) == o.steps && Accepts(h, o.steps)
  {
    hide RunLoop, Ask, Dispatch, Canon;
    var o := RunLoop(h, request, maxSteps, maxBytes, es);
    TraceIsChain(h, request, maxSteps, maxBytes, es);
    TraceSteps(o.steps);
    forall i | 0 <= i < |o.steps| ensures StepPasses(h, o.steps[i]) {
      assert Linked(h, request, es, Null, [], o.steps, i);
      var env := Dispatch(StateAt(Null, o.steps, i), request, ResultsAt(h.world, es, [], o.steps, i));
      StepParts(env, FrameOf(o.steps[i]));
      CallFailedCode(h, env, REDUCER_CALL_FAILED, TEST_CALL_FAILED);
    }
  }

  lemma TraceSteps(steps: seq<Value>)
    ensures StepsOf(TraceDoc(steps)) == steps
  {
    hide Lookup;
    var ms := TraceDoc(steps).members;
    LookupAt(ms, 0, STEPS);
    LookupAt(ms, 1, STEPS);
    LookupAt(ms, 2, STEPS);
    assert ms[0..] == ms;
  }

  // ---------- a reordered trace ----------

  /** Reading a member of two values that differ only in order gives values that do so. */
  lemma {:induction false} GetSame(v: Value, w: Value, key: Text)
    requires WellFormed(v) && WellFormed(w) && Same(v, w)
    ensures Get(v, key).Some? <==> Get(w, key).Some?
    ensures Get(v, key).Some? ==>
      Same(Get(v, key).value, Get(w, key).value) && WellFormed(Get(v, key).value) && WellFormed(Get(w, key).value)
  {
    hide Same, WellFormed;
    if v.Obj? {
      assert w.Obj? && PairedObjects(v.members, w.members) by { SameIsObject(v.members, w); }
      ObjectParts(v.members);
      ObjectParts(w.members);
      LookupFinds(v.members, key);
      LookupFinds(w.members, key);
      SameKeys(v.members, w.members, key);
      var found := Lookup(v.members, key);
      if found.Some? {
        var i :| 0 <= i < |v.members| && v.members[i] == Member(key, found.value);
        assert Paired(v.members[i], w.members);
        var j :| 0 <= j < |w.members| && w.members[j].key == key && Same(found.value, w.members[j].value);
      }
    } else {
      OnlyObjects(v, w);
    }
  }

  lemma SameKeys(ms: seq<Field>, ns: seq<Field>, key: Text)
    requires PairedObjects(ms, ns)
    ensures HasKey(ms, key) <==> HasKey(ns, key)
  {
    hide Same;
    if HasKey(ms, key) {
      var i :| 0 <= i < |ms| && ms[i].key == key;
      assert Paired(ms[i], ns);
    }
  }

  lemma OnlyObjects(v: Value, w: Value)
    requires Same(v, w) && !v.Obj?
    ensures !w.Obj?
  {
  }

  lemma SameIsObject(ms: seq<Field>, w: Value)
    requires Same(Obj(ms), w)
    ensures w.Obj? && PairedObjects(ms, w.members)
  {
  }

  lemma ObjectParts(ms: seq<Field>)
    requires WellFormed(Obj(ms))
    ensures Distinct(ms) && forall i :: 0 <= i < |ms| ==> WellFormed(ms[i].value)
  {
  }

  lemma {:induction false} LookupFinds(ms: seq<Field>, key: Text)
    requires Distinct(ms)
    ensures Lookup(ms, key).Some? <==> HasKey(ms, key)
    ensures Lookup(ms, key).Some? ==> exists i :: 0 <= i < |ms| && ms[i] == Member(key, Lookup(ms, key).value)
    ensures forall i :: 0 <= i < |ms| && ms[i].key == key ==> Lookup(ms, key) == Some(ms[i].value)
  {
    if ms != [] {
      LookupFinds(ms[1..], key);
      assert ms == [ms[0]] + ms[1..];
      if ms[0].key == key {
        assert HasKey(ms, key);
      } else if HasKey(ms[1..], key) {
        var i :| 0 <= i < |ms[1..]| && ms[1..][i] == Member(key, Lookup(ms[1..], key).value);
        assert ms[i + 1] == ms[1..][i];
      } else {
        assert forall i :: 0 < i < |ms| ==> ms[i] == ms[1..][i - 1];
      }
    }
  }

  lemma GetOrNullSame(v: Value, w: Value, key: Text)
    requires WellFormed(v) && WellFormed(w) && Same(v, w)
    ensures Same(GetOrNull(v, key), GetOrNull(w, key)) && WellFormed(GetOrNull(v, key)) && WellFormed(GetOrNull(w, key))
  {
    hide Get;
    GetSame(v, w, key);
  }

  /** Asking with a reordered dispatch is asking the same question. */
  lemma AskIsOrderBlind(h: Host, env: Value, env2: Value, code: string)
    requires OrderBlind(h) && WellFormed(env) && WellFormed(env2) && Same(env, env2)
    ensures Ask(h, env, code).Frame? ==> Ask(h, env2, code) == Ask(h, env, code)
  {
    hide Same, WellFormed, Canon, HasError;
    CanonIff(env, env2);
  }

  lemma StepIsOrderBlind(h: Host, step: Value, step2: Value)
    requires OrderBlind(h) && WellFormed(step) && WellFormed(step2) && Same(step, step2)
    ensures StepPasses(h, step) ==> StepPasses(h, step2)
  {
    hide Same, WellFormed, Canon, Ask, GetOrNull, OrderBlind;
    GetOrNullSame(step, step2, ENV);
    GetOrNullSame(step, step2, FRAME);
    AskIsOrderBlind(h, EnvOf(step), EnvOf(step2), TEST_CALL_FAILED);
    CanonIff(FrameOf(step), FrameOf(step2));
  }

  lemma StepsSame(v: Value, w: Value)
    requires WellFormed(v) && WellFormed(w) && Same(v, w)
    ensures |StepsOf(v)| == |StepsOf(w)|
    ensures forall i :: 0 <= i < |StepsOf(v)| ==>
      Same(StepsOf(v)[i], StepsOf(w)[i]) && WellFormed(StepsOf(v)[i]) && WellFormed(StepsOf(w)[i])
  {
    hide Get;
    GetSame(v, w, STEPS);
  }

  /** A trace saved and read back with its members in any order is accepted as well. */
  lemma ReorderedTraceIsAccepted(h: Host, request: Value, maxSteps: u32, maxBytes: u64, es: EffectState, trace: Value)
    requires OrderBlind(h) && Sane(h) && WellFormed(request) && WellFormed(trace)
    requires Same(TraceDoc(RunLoop(h, request, maxSteps, maxBytes, es).steps), trace)
    ensures Accepts(h, StepsOf(trace))
  {
    hide RunLoop, Same, StepPasses, TraceDoc, StepsOf, WellFormed, OrderBlind, Sane;
    var o := RunLoop(h, request, maxSteps, maxBytes, es);
    EmittedTraceIsAccepted(h, request, maxSteps, maxBytes, es);
    TraceIsWellFormed(h, request, maxSteps, maxBytes, es);
    StepsSame(TraceDoc(o.steps), trace);
    forall i | 0 <= i < |StepsOf(trace)| ensures StepPasses(h, StepsOf(trace)[i]) {
      StepIsOrderBlind(h, o.steps[i], StepsOf(trace)[i]);
    }
  }

  // ---------- the emitted trace is a proper document ----------

  lemma {:induction false} LookupWellFormed(ms: seq<Field>, key: Text)
    requires forall i :: 0 <= i < |ms| ==> WellFormed(ms[i].value)
    ensures Lookup(ms, key).Some? ==> WellFormed(Lookup(ms, key).value)
  {
    hide WellFormed;
    if ms != [] { LookupWellFormed(ms[1..], key); }
  }

  lemma GetWellFormed(v: Value, key: Text)
    requires WellFormed(v)
    ensures WellFormed(GetOrNull(v, key))
    ensures forall i :: 0 <= i < |ItemsOf(Get(v, key))| ==> WellFormed(ItemsOf(Get(v, key))[i])
  {
    if v.Obj? { LookupWellFormed(v.members, key); }
  }

  /** Short objects written out by the host have distinct keys. */
  lemma ObjectWellFormed(ms: seq<Field>)
    requires Distinct(ms) && forall i :: 0 <= i < |ms| ==> WellFormed(ms[i].value)
    ensures WellFormed(Obj(ms))
  {
  }

  lemma ResultWellFormed(eff: Value, ok: bool, more: seq<Field>)
    requires |more| <= 2 && forall m :: m in more ==> m.key !in {ID, TYPE, OK} && WellFormed(m.value)
    requires |more| == 2 ==> more[0].key != more[1].key
    ensures WellFormed(ResultOf(eff, ok, more))
  {
    hide WellFormed;
    var ms := ResultOf(eff, ok, more).members;
    assert ID[0] == 'i' as int && OK[0] == 'o' as int;
    Leaves(Str(IdOf(eff)));
    Leaves(Str(AsText(Get(eff, TYPE), [])));
    Leaves(Bool(ok));
    forall k | 3 <= k < |ms| ensures ms[k].key !in {ID, TYPE, OK} && WellFormed(ms[k].value) {
      assert ms[k] == more[k - 3] && more[k - 3] in more;
    }
    ObjectWellFormed(ms);
  }

  lemma Leaves(v: Value)
    requires !v.Obj? && !v.Arr?
    ensures WellFormed(v)
  {
  }

  lemma ExecutedWellFormed(w: World, es: EffectState, eff: Value)
    requires forall n, e :: WellFormed(w.fetch(n, e).result)
    ensures WellFormed(Execute(w, es, eff).result)
  {
    hide WellFormed, ResultOf, BytesToPayload, KindOf, PayloadToBytes, Get, Stored;
    KeysDiffer();
    Leaves(Bool(true));
    Leaves(Bool(false));
    Leaves(Null);
    Leaves(Str(CLOCK_DENIED));
    Leaves(Str(UNKNOWN_EFFECT));
    Leaves(Str(w.putError(GetOrNull(eff, VALUE))));
    Leaves(Number(w.now(es.calls)));
    match KindOf(eff)
    case KvGet =>
      var held := Stored(es.kv, KeyOf(eff));
      if held.Some? {
        PayloadWellFormed(held.value);
        ResultWellFormed(eff, true, [Member(FOUND, Bool(true)), Member(VALUE, BytesToPayload(held.value))]);
      } else {
        ResultWellFormed(eff, true, [Member(FOUND, Bool(false)), Member(VALUE, Null)]);
      }
    case KvPut =>
      ResultWellFormed(eff, true, [Member(WRITTEN, Bool(true))]);
      ResultWellFormed(eff, false, [Member(ERROR, Str(w.putError(GetOrNull(eff, VALUE))))]);
    case LogEmit => ResultWellFormed(eff, true, [Member(EMITTED, Bool(true))]);
    case TimeNow =>
      ResultWellFormed(eff, false, [Member(ERROR, Str(CLOCK_DENIED))]);
      ResultWellFormed(eff, true, [Member(UNIX_MS, Number(w.now(es.calls)))]);
    case HttpFetch =>
    case Unknown => ResultWellFormed(eff, false, [Member(ERROR, Str(UNKNOWN_EFFECT))]);
  }

  lemma KeysDiffer()
    ensures FOUND !in {ID, TYPE, OK} && VALUE !in {ID, TYPE, OK} && WRITTEN !in {ID, TYPE, OK}
    ensures EMITTED !in {ID, TYPE, OK} && ERROR !in {ID, TYPE, OK} && UNIX_MS !in {ID, TYPE, OK}
    ensures FOUND != VALUE
  {
    assert FOUND[0] == 'f' as int && VALUE[0] == 'v' as int;
  }

  lemma PayloadWellFormed(bytes: Blob)
    ensures WellFormed(BytesToPayload(bytes))
  {
    hide Base64.Encode, JsonText.IsUtf8;
  }

  lemma {:induction false} ResultsWellFormed(w: World, es: EffectState, effs: seq<Value>)
    requires forall n, e :: WellFormed(w.fetch(n, e).result)
    ensures forall i :: 0 <= i < |effs| ==> WellFormed(ExecuteAll(w, es, effs).results[i])
    decreases |effs|
  {
    hide WellFormed, Execute;
    if effs != [] {
      ExecutedWellFormed(w, es, effs[0]);
      ResultsWellFormed(w, Execute(w, es, effs[0]).after, effs[1..]);
    }
  }

  lemma DispatchWellFormed(state: Value, request: Value, results: seq<Value>)
    requires WellFormed(state) && WellFormed(request) && forall i :: 0 <= i < |results| ==> WellFormed(results[i])
    ensures WellFormed(Dispatch(state, request, results))
  {
    assert VERSION != KIND && KIND != STATE && STATE != REQUEST && REQUEST != EFFECT_RESULTS;
    var ms := Dispatch(state, request, results).members;
    assert WellFormed(Arr(results));
  }

  lemma StepWellFormed(h: Host, request: Value, es: EffectState, steps: seq<Value>, i: nat)
    requires Sane(h) && WellFormed(request) && i < |steps|
    requires forall k :: 0 <= k <= i ==> Linked(h, request, es, Null, [], steps, k)
    ensures WellFormed(FrameOf(steps[i])) && WellFormed(EnvOf(steps[i])) && WellFormed(steps[i])
  {
    hide WellFormed, Dispatch, ExecuteAll, EffectStateAt, EffectsOf, FrameOf, StateOf, StepDoc;
    FrameWellFormed(h, request, es, steps, i);
    var env := Dispatch(StateAt(Null, steps, i), request, ResultsAt(h.world, es, [], steps, i));
    Leaves(Null);
    if i > 0 {
      FrameWellFormed(h, request, es, steps, i - 1);
      FrameParts(FrameOf(steps[i - 1]));
      ResultsWellFormed(h.world, EffectStateAt(h.world, es, steps, i - 1), EffectsOf(FrameOf(steps[i - 1])));
    }
    DispatchWellFormed(StateAt(Null, steps, i), request, ResultsAt(h.world, es, [], steps, i));
    assert Linked(h, request, es, Null, [], steps, i);
    StepParts(env, FrameOf(steps[i]));
    StepDocWellFormed(env, FrameOf(steps[i]));
  }

  lemma StepDocWellFormed(env: Value, frame: Value)
    requires WellFormed(env) && WellFormed(frame)
    ensures WellFormed(StepDoc(env, frame))
  {
    assert ENV != FRAME;
  }

  lemma FrameParts(frame: Value)
    requires WellFormed(frame)
    ensures WellFormed(StateOf(frame))
  {
    GetWellFormed(frame, STATE);
  }

  lemma FrameWellFormed(h: Host, request: Value, es: EffectState, steps: seq<Value>, i: nat)
    requires Sane(h) && i < |steps| && Linked(h, request, es, Null, [], steps, i)
    ensures WellFormed(FrameOf(steps[i]))
  {
    hide WellFormed, Dispatch, StateAt, ResultsAt, FrameOf, StepDoc, Canon;
  }

  lemma TraceIsWellFormed(h: Host, request: Value, maxSteps: u32, maxBytes: u64, es: EffectState)
    requires Sane(h) && WellFormed(request)
    ensures WellFormed(TraceDoc(RunLoop(h, request, maxSteps, maxBytes, es).steps))
  {
    hide RunLoop, WellFormed, Linked, Sane;
    var steps := RunLoop(h, request, maxSteps, maxBytes, es).steps;
    TraceIsChain(h, request, maxSteps, maxBytes, es);
    forall i | 0 <= i < |steps| ensures WellFormed(steps[i]) {
      StepWellFormed(h, request, es, steps, i);
    }
    TraceDocWellFormed(steps);
  }

  lemma TraceDocWellFormed(steps: seq<Value>)
    requires forall i :: 0 <= i < |steps| ==> WellFormed(steps[i])
    ensures WellFormed(TraceDoc(steps))
  {
    assert KIND[0] == 'k' as int && META[0] == 'm' as int;
    assert WellFormed(Arr(steps)) && WellFormed(Obj([]));
  }
}
