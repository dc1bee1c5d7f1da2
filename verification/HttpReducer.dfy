/**
 The HTTP reducer's effect loop: a bounded run of dispatch, core call, frame and
 effects, with the trace of its steps.
 */
module HttpReducer {
  import opened Words
  import opened KeyOrder
  import opened CanonJson
  import opened HttpEffects

  const VERSION := Ascii("v")
  const KIND := Ascii("kind")
  const STATE := Ascii("state")
  const REQUEST := Ascii("request")
  const EFFECT_RESULTS := Ascii("effect_results")
  const EFFECTS := Ascii("effects")
  const ENV := Ascii("env")
  const FRAME := Ascii("frame")
  const STEPS := Ascii("steps")
  const META := Ascii("meta")
  const DISPATCH_KIND := Ascii("x07.http.dispatch")
  const TRACE_KIND := Ascii("x07.http.trace")

  const DISPATCH_SCHEMA_INVALID := "X07WASM_HTTP_DISPATCH_SCHEMA_INVALID"
  const FRAME_SCHEMA_INVALID := "X07WASM_HTTP_FRAME_SCHEMA_INVALID"
  const REDUCER_CALL_FAILED := "X07WASM_HTTP_REDUCER_CALL_FAILED"
  const RESULT_BYTES_EXCEEDED := "X07WASM_BUDGET_EXCEEDED_HTTP_EFFECT_RESULT_BYTES"
  const LOOPS_EXCEEDED := "X07WASM_BUDGET_EXCEEDED_HTTP_EFFECTS_LOOPS"

  datatype Budget = CpuFuel | WasmStack | LinearMemory | Table
  datatype CoreResult = Output(bytes: Text) | OverBudget(kind: Budget) | CallFailed

  /** The core and the JSON and schema libraries, as functions of their inputs. */
  datatype Host = Host(
    world: World,
    dispatchDiags: Value -> seq<Diag>,
    frameDiags: Value -> seq<Diag>,
    core: Text -> CoreResult,
    write: Value -> Text,
    read: Text -> Option<Value>)

  function BudgetCode(kind: Budget): string {
    match kind
    case CpuFuel => "X07WASM_BUDGET_EXCEEDED_CPU_FUEL"
    case WasmStack => "X07WASM_BUDGET_EXCEEDED_WASM_STACK"
    case LinearMemory => "X07WASM_BUDGET_EXCEEDED_MEMORY"
    case Table => "X07WASM_BUDGET_EXCEEDED_TABLE"
  }

  function CanonicalBytes(h: Host, v: Value): Text { h.write(Canon(v)) }

  // ---------- one call of the core ----------

  /** `actual` is the rejected frame, when there is one. */
  datatype Asked = Frame(frame: Value) | NoFrame(diags: seq<Diag>, actual: Option<Value>)

  /** Validates a dispatch, calls the core on its canonical bytes and validates the frame. */
  function Ask(h: Host, env: Value, callFailed: string): (r: Asked)
    ensures r.NoFrame? ==> HasError(r.diags)
  {
    var envDiags := h.dispatchDiags(env);
    if HasError(envDiags) then
      LeadingError(DISPATCH_SCHEMA_INVALID, envDiags);
      NoFrame([Diag(DISPATCH_SCHEMA_INVALID, true)] + envDiags, None)
    else
      match h.core(CanonicalBytes(h, env))
      case OverBudget(kind) =>
        LeadingError(BudgetCode(kind), []);
        NoFrame([Diag(BudgetCode(kind), true)] + [], None)
      case CallFailed =>
        LeadingError(callFailed, []);
        NoFrame([Diag(callFailed, true)] + [], None)
      case Output(bytes) =>
        var frame := h.read(bytes);
        if frame.None? then
          LeadingError(FRAME_SCHEMA_INVALID, []);
          NoFrame([Diag(FRAME_SCHEMA_INVALID, true)] + [], None)
        else
          var diags := h.frameDiags(frame.value);
          if HasError(diags) then
            LeadingError(FRAME_SCHEMA_INVALID, diags);
            NoFrame([Diag(FRAME_SCHEMA_INVALID, true)] + diags, frame)
          else Frame(frame.value)
  }

  lemma LeadingError(code: string, more: seq<Diag>)
    ensures HasError([Diag(code, true)] + more)
  {
    assert ([Diag(code, true)] + more)[0].error;
  }

  /** The core, called on the canonical bytes of a valid dispatch, gave the bytes of this valid frame. */
  ghost predicate AnsweredBy(h: Host, env: Value, frame: Value) {
    && !HasError(h.dispatchDiags(env)) && !HasError(h.frameDiags(frame))
    && exists bytes :: h.core(h.write(Canon(env))) == Output(bytes) && h.read(bytes) == Some(frame)
  }

  /** A frame comes back exactly when the core answered with it. */
  lemma AskIff(h: Host, env: Value, callFailed: string, frame: Value)
    ensures Ask(h, env, callFailed) == Frame(frame) <==> AnsweredBy(h, env, frame)
  {
    hide Canon, HasError;
    var r := h.core(h.write(Canon(env)));
    assert forall bytes :: r == Output(bytes) ==> r.bytes == bytes;
  }

  /** Otherwise the reason comes first: an invalid dispatch, a failed call, or an answer that is no valid frame. */
  lemma AskRefuses(h: Host, env: Value, callFailed: string)
    requires Ask(h, env, callFailed).NoFrame?
    ensures
      var ds := Ask(h, env, callFailed).diags;
      var r := h.core(h.write(Canon(env)));
      if HasError(h.dispatchDiags(env)) then
        ds == [Diag("X07WASM_HTTP_DISPATCH_SCHEMA_INVALID", true)] + h.dispatchDiags(env)
      else if r == CallFailed then ds == [Diag(callFailed, true)]
      else if r == OverBudget(CpuFuel) then ds == [Diag("X07WASM_BUDGET_EXCEEDED_CPU_FUEL", true)]
      else if r == OverBudget(WasmStack) then ds == [Diag("X07WASM_BUDGET_EXCEEDED_WASM_STACK", true)]
      else if r == OverBudget(LinearMemory) then ds == [Diag("X07WASM_BUDGET_EXCEEDED_MEMORY", true)]
      else if r == OverBudget(Table) then ds == [Diag("X07WASM_BUDGET_EXCEEDED_TABLE", true)]
      else
        && r.Output? && ds[0] == Diag("X07WASM_HTTP_FRAME_SCHEMA_INVALID", true)
        && var read := h.read(r.bytes);
           ds[1..] == if read.Some? then h.frameDiags(read.value) else []
  {
    hide Canon, HasError;
  }

  // ---------- the documents ----------

  function Dispatch(state: Value, request: Value, results: seq<Value>): Value {
    Obj([Member(VERSION, Number(1)), Member(KIND, Str(DISPATCH_KIND)), Member(STATE, state),
         Member(REQUEST, request), Member(EFFECT_RESULTS, Arr(results))])
  }

  /** env says this state, request and results under their names, is marked as a dispatch, and says nothing else. */
  ghost predicate IsDispatch(env: Value, state: Value, request: Value, results: seq<Value>) {
    && env.Obj? && |env.members| == 5
    && Says(env, "v", Number(1)) && Says(env, "kind", Str(Ascii("x07.http.dispatch")))
    && Says(env, "state", state) && Says(env, "request", request) && Says(env, "effect_results", Arr(results))
  }

  lemma DispatchNames()
    ensures |VERSION| == 1 && |KIND| == 4 && |STATE| == 5 && |REQUEST| == 7 && |EFFECT_RESULTS| == 14
  {
  }

  lemma DispatchSays(state: Value, request: Value, results: seq<Value>)
    ensures IsDispatch(Dispatch(state, request, results), state, request, results)
  {
    hide Lookup;
    DispatchNames();
    var ms := Dispatch(state, request, results).members;
    Lookup5(ms, VERSION);
    Lookup5(ms, KIND);
    Lookup5(ms, STATE);
    Lookup5(ms, REQUEST);
    Lookup5(ms, EFFECT_RESULTS);
  }

  /** A step holds a dispatch and the frame it was answered with, and nothing else. */
  ghost predicate IsStep(step: Value, env: Value, frame: Value) {
    step.Obj? && |step.members| == 2 && Says(step, "env", env) && Says(step, "frame", frame)
  }

  lemma StepSays(env: Value, frame: Value)
    ensures IsStep(StepDoc(env, frame), env, frame)
  {
    hide Lookup;
    assert |ENV| == 3 && |FRAME| == 5;
    UpToThree(StepDoc(env, frame).members, ENV);
    UpToThree(StepDoc(env, frame).members, FRAME);
  }

  /** A trace holds its steps, is marked as a trace, and has an empty `meta`. */
  lemma TraceSays(steps: seq<Value>)
    ensures
      var t := TraceDoc(steps);
      && |t.members| == 4 && Says(t, "v", Number(1)) && Says(t, "kind", Str(Ascii("x07.http.trace")))
      && Says(t, "steps", Arr(steps)) && Says(t, "meta", Obj([]))
  {
    hide Lookup;
    assert |VERSION| == 1 && |KIND| == 4 && |STEPS| == 5 && |META| == 4 && META[0] == 'm' as int && KIND[0] == 'k' as int;
    var ms := TraceDoc(steps).members;
    FourFields(ms, VERSION);
    FourFields(ms, KIND);
    FourFields(ms, STEPS);
    FourFields(ms, META);
  }

  lemma FourFields(ms: seq<Field>, key: Text)
    requires |ms| == 4
    ensures Lookup(ms, key) ==
      if ms[0].key == key then Some(ms[0].value) else if ms[1].key == key then Some(ms[1].value)
      else if ms[2].key == key then Some(ms[2].value) else if ms[3].key == key then Some(ms[3].value) else None
  {
    hide Lookup;
    assert ms == ms[..3] + [ms[3]];
    LookupJoin(ms[..3], [ms[3]], key);
    UpToThree(ms[..3], key);
    UpToThree([ms[3]], key);
  }

  /** What the loop reads from a frame. */
  lemma FrameReads(frame: Value, effects: seq<Value>, response: Value)
    ensures StateOf(frame) == GetOrNull(frame, Ascii("state"))
    ensures Says(frame, "effects", Arr(effects)) ==> EffectsOf(frame) == effects
    ensures (forall x :: !Says(frame, "effects", Arr(x))) ==> EffectsOf(frame) == []
    ensures ResponseOf(frame) == Some(response) <==> Says(frame, "response", response) && response != Null
  {
    hide Get;
    var e := Get(frame, EFFECTS);
    if e.Some? && e.value.Arr? { assert Says(frame, "effects", Arr(e.value.items)); }
  }

  function StepDoc(env: Value, frame: Value): Value { Obj([Member(ENV, env), Member(FRAME, frame)]) }

  function TraceDoc(steps: seq<Value>): Value {
    Obj([Member(VERSION, Number(1)), Member(KIND, Str(TRACE_KIND)), Member(STEPS, Arr(steps)), Member(META, Obj([]))])
  }

  function EnvOf(step: Value): Value { GetOrNull(step, ENV) }

  function FrameOf(step: Value): Value { GetOrNull(step, FRAME) }

  function StateOf(frame: Value): Value { GetOrNull(frame, STATE) }

  function ItemsOf(v: Option<Value>): seq<Value> { if v.Some? && v.value.Arr? then v.value.items else [] }

  function EffectsOf(frame: Value): seq<Value> { ItemsOf(Get(frame, EFFECTS)) }

  function ResponseOf(frame: Value): Option<Value> {
    var r := Get(frame, RESPONSE);
    if r.Some? && !r.value.Null? then r else None
  }

  lemma StepParts(env: Value, frame: Value)
    ensures EnvOf(StepDoc(env, frame)) == env && FrameOf(StepDoc(env, frame)) == frame
  {
    var ms := StepDoc(env, frame).members;
    LookupAt(ms, 0, ENV);
    LookupAt(ms, 0, FRAME);
    LookupAt(ms, 1, FRAME);
    assert ms[0..] == ms;
  }

  // ---------- the loop ----------

  datatype Outcome = Outcome(response: Option<Value>, steps: seq<Value>, diags: seq<Diag>, after: EffectState)

  function Prepend(step: Value, diags: seq<Diag>, o: Outcome): Outcome {
    o.(steps := [step] + o.steps, diags := diags + o.diags)
  }

  /** The rest of a run that may take `left` more steps. */
  function Loop(h: Host, request: Value, maxBytes: u64, left: nat, es: EffectState, state: Value, results: seq<Value>)
    : Outcome
  {
    if left == 0 then Outcome(None, [], [Diag(LOOPS_EXCEEDED, true)], es)
    else
      var env := Dispatch(state, request, results);
      match Ask(h, env, REDUCER_CALL_FAILED)
      case NoFrame(diags, _) => Outcome(None, [], diags, es)
      case Frame(frame) =>
        var step := StepDoc(env, frame);
        if ResponseOf(frame).Some? then Outcome(ResponseOf(frame), [step], [], es)
        else
          match ExecuteWithin(h.world, es, EffectsOf(frame), maxBytes, 0)
          case Over(after, diags) => Outcome(None, [step], diags + [Diag(RESULT_BYTES_EXCEEDED, true)], after)
          case Within(run) =>
            Prepend(step, run.diags, Loop(h, request, maxBytes, left - 1, run.after, StateOf(frame), run.results))
  }

  // ---------- what a trace must be ----------

  /** The effect state after the effects of the first i frames. */
  function EffectStateAt(w: World, es: EffectState, steps: seq<Value>, i: nat): EffectState
    requires i <= |steps|
  {
    if i == 0 then es
    else ExecuteAll(w, EffectStateAt(w, es, steps, i - 1), EffectsOf(FrameOf(steps[i - 1]))).after
  }

  /** The in-order results of the effects of frame i - 1; `results` before the first step. */
  function ResultsAt(w: World, es: EffectState, results: seq<Value>, steps: seq<Value>, i: nat): seq<Value>
    requires i <= |steps|
  {
    if i == 0 then results
    else ExecuteAll(w, EffectStateAt(w, es, steps, i - 1), EffectsOf(FrameOf(steps[i - 1]))).results
  }

  function StateAt(state: Value, steps: seq<Value>, i: nat): Value
    requires i <= |steps|
  {
    if i == 0 then state else StateOf(FrameOf(steps[i - 1]))
  }

  /** Step i dispatches the previous state and results, and holds the core's answer to that dispatch. */
  ghost predicate Linked(h: Host, request: Value, es: EffectState, state: Value, results: seq<Value>,
                         steps: seq<Value>, i: nat)
    requires i < |steps|
  {
    var env := Dispatch(StateAt(state, steps, i), request, ResultsAt(h.world, es, results, steps, i));
    && steps[i] == StepDoc(env, FrameOf(steps[i]))
    && Ask(h, env, REDUCER_CALL_FAILED) == Frame(FrameOf(steps[i]))
  }

  /** Step i is not the last: its frame has no response and its effects' results fit the budget. */
  ghost predicate GoesOn(h: Host, maxBytes: u64, es: EffectState, steps: seq<Value>, i: nat)
    requires i < |steps|
  {
    && ResponseOf(FrameOf(steps[i])).None?
    && Affordable(TotalBytes(ResultsAt(h.world, es, [], steps, i + 1)), maxBytes)
  }

  lemma {:induction false} ShiftStates(w: World, es: EffectState, step: Value, rest: seq<Value>, i: nat)
    requires i <= |rest|
    ensures
      EffectStateAt(w, es, [step] + rest, i + 1)
      == EffectStateAt(w, ExecuteAll(w, es, EffectsOf(FrameOf(step))).after, rest, i)
  {
    hide ExecuteAll, EffectsOf, FrameOf;
    if i > 0 {
      ShiftStates(w, es, step, rest, i - 1);
      assert ([step] + rest)[i] == rest[i - 1];
    } else {
      assert EffectStateAt(w, es, [step] + rest, 0) == es;
    }
  }

  ghost predicate Chain(h: Host, request: Value, maxBytes: u64, es: EffectState, state: Value,
                        results: seq<Value>, steps: seq<Value>)
  {
    && (forall i :: 0 <= i < |steps| ==> Linked(h, request, es, state, results, steps, i))
    && (forall i :: 0 <= i < |steps| - 1 ==> GoesOn(h, maxBytes, es, steps, i))
  }

  lemma ChainGrows(h: Host, request: Value, maxBytes: u64, es: EffectState, state: Value, results: seq<Value>,
                   frame: Value, rest: seq<Value>)
    requires Ask(h, Dispatch(state, request, results), REDUCER_CALL_FAILED) == Frame(frame)
    requires ResponseOf(frame).None?
    requires
      var run := ExecuteAll(h.world, es, EffectsOf(frame));
      && Affordable(TotalBytes(run.results), maxBytes)
      && Chain(h, request, maxBytes, run.after, StateOf(frame), run.results, rest)
    ensures Chain(h, request, maxBytes, es, state, results, [StepDoc(Dispatch(state, request, results), frame)] + rest)
  {
    hide ExecuteAll, EffectsOf, FrameOf, StateOf, ResponseOf, Ask, Dispatch, TotalBytes, EffectStateAt, Affordable;
    var env := Dispatch(state, request, results);
    var step := StepDoc(env, frame);
    var steps := [step] + rest;
    var run := ExecuteAll(h.world, es, EffectsOf(frame));
    StepParts(env, frame);
    forall i | 0 <= i < |steps| ensures Linked(h, request, es, state, results, steps, i) {
      if i > 0 {
        ShiftLink(h, es, step, rest, i - 1, state, results);
        assert Linked(h, request, run.after, StateOf(frame), run.results, rest, i - 1);
      }
    }
    forall i | 0 <= i < |steps| - 1 ensures GoesOn(h, maxBytes, es, steps, i) {
      if i == 0 {
        FirstState(h.world, es, steps);
      } else {
        ShiftLink(h, es, step, rest, i, state, []);
        assert GoesOn(h, maxBytes, run.after, rest, i - 1);
      }
    }
  }

  lemma FirstState(w: World, es: EffectState, steps: seq<Value>)
    ensures EffectStateAt(w, es, steps, 0) == es
  {
  }

  lemma StepBefore(step: Value, rest: seq<Value>, i: nat)
    requires i <= |rest|
    ensures ([step] + rest)[i] == if i == 0 then step else rest[i - 1]
  {
  }

  lemma ShiftState(step: Value, rest: seq<Value>, i: nat, state: Value)
    requires i <= |rest|
    ensures StateAt(state, [step] + rest, i + 1) == StateAt(StateOf(FrameOf(step)), rest, i)
  {
    hide FrameOf, StateOf;
    StepBefore(step, rest, i);
  }

  /** Results after the same frame from the same effect state are the same. */
  lemma SameResults(w: World, es: EffectState, steps: seq<Value>, i: nat, es2: EffectState, steps2: seq<Value>, j: nat,
                    results: seq<Value>, results2: seq<Value>)
    requires i < |steps| && j < |steps2| && steps[i] == steps2[j]
    requires EffectStateAt(w, es, steps, i) == EffectStateAt(w, es2, steps2, j)
    ensures ResultsAt(w, es, results, steps, i + 1) == ResultsAt(w, es2, results2, steps2, j + 1)
  {
    hide ExecuteAll, EffectsOf, FrameOf, EffectStateAt;
  }

  lemma FirstResults(w: World, es: EffectState, steps: seq<Value>, results: seq<Value>)
    requires steps != []
    ensures ResultsAt(w, es, results, steps, 1) == ExecuteAll(w, es, EffectsOf(FrameOf(steps[0]))).results
  {
    hide ExecuteAll, EffectsOf, FrameOf, EffectStateAt;
    FirstState(w, es, steps);
  }

  lemma ShiftResults(w: World, es: EffectState, step: Value, rest: seq<Value>, i: nat, results: seq<Value>)
    requires i <= |rest|
    ensures
      var run := ExecuteAll(w, es, EffectsOf(FrameOf(step)));
      ResultsAt(w, es, results, [step] + rest, i + 1) == ResultsAt(w, run.after, run.results, rest, i)
  {
    hide ExecuteAll, EffectsOf, FrameOf, EffectStateAt;
    var steps := [step] + rest;
    StepBefore(step, rest, i);
    if i == 0 {
      FirstResults(w, es, steps, results);
    } else {
      hide ResultsAt;
      var run := ExecuteAll(w, es, EffectsOf(FrameOf(step)));
      ShiftStates(w, es, step, rest, i - 1);
      SameResults(w, es, steps, i, run.after, rest, i - 1, results, run.results);
    }
  }

  /** Position i of the rest sees what position i + 1 of the whole sees. */
  lemma ShiftLink(h: Host, es: EffectState, step: Value, rest: seq<Value>, i: nat, state: Value, results: seq<Value>)
    requires i <= |rest|
    ensures
      var run := ExecuteAll(h.world, es, EffectsOf(FrameOf(step)));
      var steps := [step] + rest;
      && StateAt(state, steps, i + 1) == StateAt(StateOf(FrameOf(step)), rest, i)
      && ResultsAt(h.world, es, results, steps, i + 1) == ResultsAt(h.world, run.after, run.results, rest, i)
  {
    hide ExecuteAll, EffectsOf, FrameOf, StateOf, EffectStateAt, StateAt, ResultsAt;
    ShiftState(step, rest, i, state);
    ShiftResults(h.world, es, step, rest, i, results);
  }

  ghost predicate GoodOutcome(h: Host, request: Value, maxBytes: u64, left: nat, es: EffectState, state: Value,
                              results: seq<Value>, o: Outcome)
  {
    && |o.steps| <= left
    && Chain(h, request, maxBytes, es, state, results, o.steps)
    && o.response == (if o.steps == [] then None else ResponseOf(FrameOf(o.steps[|o.steps| - 1])))
    && (o.response.None? ==> HasError(o.diags))
  }

  lemma {:induction false} LoopIsGood(h: Host, request: Value, maxBytes: u64, left: nat, es: EffectState,
                                      state: Value, results: seq<Value>)
    ensures
      GoodOutcome(h, request, maxBytes, left, es, state, results,
                  Loop(h, request, maxBytes, left, es, state, results))
    decreases left
  {
    hide Ask, ExecuteWithin, ExecuteAll, EffectsOf, ResponseOf, StateOf, FrameOf, Dispatch, TotalBytes;
    if left == 0 {
      LeadingError(LOOPS_EXCEEDED, []);
    } else {
      var env := Dispatch(state, request, results);
      var asked := Ask(h, env, REDUCER_CALL_FAILED);
      if asked.Frame? {
        var frame := asked.frame;
        StepParts(env, frame);
        var o := Loop(h, request, maxBytes, left, es, state, results);
        if ResponseOf(frame).Some? {
          OneStep(h, request, maxBytes, es, state, results, frame);
        } else {
          BudgetIsExact(h.world, es, EffectsOf(frame), maxBytes, 0);
          match ExecuteWithin(h.world, es, EffectsOf(frame), maxBytes, 0)
          case Over(after, diags) =>
            OneStep(h, request, maxBytes, es, state, results, frame);
            assert o.diags[|o.diags| - 1].error;
          case Within(run) =>
            LoopIsGood(h, request, maxBytes, left - 1, run.after, StateOf(frame), run.results);
            GrowOutcome(h, request, maxBytes, left, es, state, results, frame,
                        Loop(h, request, maxBytes, left - 1, run.after, StateOf(frame), run.results));
        }
      }
    }
  }

  lemma OneStep(h: Host, request: Value, maxBytes: u64, es: EffectState, state: Value, results: seq<Value>, frame: Value)
    requires Ask(h, Dispatch(state, request, results), REDUCER_CALL_FAILED) == Frame(frame)
    ensures Chain(h, request, maxBytes, es, state, results, [StepDoc(Dispatch(state, request, results), frame)])
  {
    hide Ask, Dispatch, FrameOf, EffectsOf, ExecuteAll;
    StepParts(Dispatch(state, request, results), frame);
  }

  lemma GrowOutcome(h: Host, request: Value, maxBytes: u64, left: nat, es: EffectState, state: Value,
                    results: seq<Value>, frame: Value, o: Outcome)
    requires left > 0 && Ask(h, Dispatch(state, request, results), REDUCER_CALL_FAILED) == Frame(frame)
    requires ResponseOf(frame).None?
    requires
      var run := ExecuteAll(h.world, es, EffectsOf(frame));
      && Affordable(TotalBytes(run.results), maxBytes)
      && GoodOutcome(h, request, maxBytes, left - 1, run.after, StateOf(frame), run.results, o)
    ensures
      var step := StepDoc(Dispatch(state, request, results), frame);
      forall diags :: GoodOutcome(h, request, maxBytes, left, es, state, results, Prepend(step, diags, o))
  {
    hide Ask, ExecuteAll, EffectsOf, ResponseOf, StateOf, FrameOf, Dispatch, TotalBytes, Linked, GoesOn;
    var env := Dispatch(state, request, results);
    var step := StepDoc(env, frame);
    StepParts(env, frame);
    ChainGrows(h, request, maxBytes, es, state, results, frame, o.steps);
    forall diags: seq<Diag>
      ensures GoodOutcome(h, request, maxBytes, left, es, state, results, Prepend(step, diags, o))
    {
      var p := Prepend(step, diags, o);
      assert o.steps != [] ==> p.steps[|p.steps| - 1] == o.steps[|o.steps| - 1];
      if o.response.None? {
        var k :| 0 <= k < |o.diags| && o.diags[k].error;
        assert p.diags[|diags| + k].error;
      }
    }
  }

  // ---------- how a run ends ----------

  /** The diagnostics of the effects of the first i frames, in order. */
  function DiagsAt(w: World, es: EffectState, steps: seq<Value>, i: nat): seq<Diag>
    requires i <= |steps|
  {
    if i == 0 then []
    else
      DiagsAt(w, es, steps, i - 1)
      + ExecuteAll(w, EffectStateAt(w, es, steps, i - 1), EffectsOf(FrameOf(steps[i - 1]))).diags
  }

  lemma {:induction false} ShiftDiags(w: World, es: EffectState, step: Value, rest: seq<Value>, i: nat)
    requires i <= |rest|
    ensures
      var run := ExecuteAll(w, es, EffectsOf(FrameOf(step)));
      DiagsAt(w, es, [step] + rest, i + 1) == run.diags + DiagsAt(w, run.after, rest, i)
  {
    hide ExecuteAll, EffectsOf, FrameOf;
    var steps := [step] + rest;
    var run := ExecuteAll(w, es, EffectsOf(FrameOf(step)));
    if i > 0 {
      ShiftDiags(w, es, step, rest, i - 1);
      ShiftStates(w, es, step, rest, i - 1);
      assert steps[i] == rest[i - 1];
    } else {
      assert DiagsAt(w, es, steps, 0) == [] && EffectStateAt(w, es, steps, 0) == es;
      assert [] + run.diags == run.diags + [];
    }
  }

  /** The run has spent its steps. */
  ghost predicate OutOfSteps(w: World, left: nat, es: EffectState, o: Outcome) {
    && |o.steps| == left && o.after == EffectStateAt(w, es, o.steps, left)
    && o.diags == DiagsAt(w, es, o.steps, left) + [Diag("X07WASM_BUDGET_EXCEEDED_HTTP_EFFECTS_LOOPS", true)]
  }

  /** The core gave no frame for the next dispatch. */
  ghost predicate NotAnswered(h: Host, request: Value, left: nat, es: EffectState, state: Value, results: seq<Value>, o: Outcome) {
    var n := |o.steps|;
    && n < left && o.after == EffectStateAt(h.world, es, o.steps, n)
    && var asked := Ask(h, Dispatch(StateAt(state, o.steps, n), request, ResultsAt(h.world, es, results, o.steps, n)),
                        REDUCER_CALL_FAILED);
       asked.NoFrame? && o.diags == DiagsAt(h.world, es, o.steps, n) + asked.diags
  }

  /** The results of the last frame's effects are too large; its effects ran up to the first that was. */
  ghost predicate TooManyBytes(w: World, maxBytes: u64, es: EffectState, o: Outcome) {
    && o.steps != []
    && var n := |o.steps|;
       && !Affordable(TotalBytes(ResultsAt(w, es, [], o.steps, n)), maxBytes)
       && exists diags: seq<Diag> :: LastStopped(w, maxBytes, es, o, diags)
  }

  ghost predicate LastStopped(w: World, maxBytes: u64, es: EffectState, o: Outcome, diags: seq<Diag>)
    requires o.steps != []
  {
    var k := |o.steps| - 1;
    && StoppedEarly(w, maxBytes, EffectStateAt(w, es, o.steps, k), EffectsOf(FrameOf(o.steps[k])), o.after, diags)
    && o.diags == DiagsAt(w, es, o.steps, k) + diags + [Diag("X07WASM_BUDGET_EXCEEDED_HTTP_EFFECT_RESULT_BYTES", true)]
  }

  ghost predicate StoppedEarly(w: World, maxBytes: u64, es: EffectState, effs: seq<Value>, after: EffectState,
                               diags: seq<Diag>)
  {
    exists k: nat :: StoppedAfter(w, maxBytes, es, effs, k, after, diags)
  }

  ghost predicate StoppedAfter(w: World, maxBytes: u64, es: EffectState, effs: seq<Value>, k: nat, after: EffectState,
                               diags: seq<Diag>)
  {
    && k < |effs|
    && var ran := ExecuteAll(w, es, effs[..k + 1]);
       after == ran.after && diags == ran.diags && !Affordable(TotalBytes(ran.results), maxBytes)
       && Affordable(TotalBytes(ran.results[..k]), maxBytes)
  }

  /** A run ends with the response of its last frame, whose effects are not run, or for one of three reasons. */
  ghost predicate EndsRight(h: Host, request: Value, maxBytes: u64, left: nat, es: EffectState, state: Value,
                            results: seq<Value>, o: Outcome)
  {
    if o.response.Some? then
      && o.steps != [] && o.after == EffectStateAt(h.world, es, o.steps, |o.steps| - 1)
      && o.diags == DiagsAt(h.world, es, o.steps, |o.steps| - 1)
    else
      || OutOfSteps(h.world, left, es, o)
      || NotAnswered(h, request, left, es, state, results, o)
      || TooManyBytes(h.world, maxBytes, es, o)
  }

  /** A first step before a run that ends right. */
  lemma EndsRightMore(h: Host, request: Value, maxBytes: u64, left: nat, es: EffectState, state: Value,
                      results: seq<Value>, env: Value, frame: Value, o: Outcome)
    requires left > 0
    requires
      var run := ExecuteAll(h.world, es, EffectsOf(frame));
      EndsRight(h, request, maxBytes, left - 1, run.after, StateOf(frame), run.results, o)
    ensures
      EndsRight(h, request, maxBytes, left, es, state, results,
                Prepend(StepDoc(env, frame), ExecuteAll(h.world, es, EffectsOf(frame)).diags, o))
  {
    hide ExecuteAll, EffectsOf, FrameOf, StateOf, Ask, Dispatch, TotalBytes, Affordable, StepDoc;
    hide EffectStateAt, ResultsAt, StateAt, DiagsAt, StoppedEarly;
    var step := StepDoc(env, frame);
    StepParts(env, frame);
    var w := h.world;
    var run := ExecuteAll(w, es, EffectsOf(frame));
    var p := Prepend(step, run.diags, o);
    var n := |o.steps|;
    ShiftStates(w, es, step, o.steps, n);
    ShiftDiags(w, es, step, o.steps, n);
    ShiftLink(h, es, step, o.steps, n, state, results);
    if n > 0 {
      assert p.steps[n] == o.steps[n - 1];
      ShiftStates(w, es, step, o.steps, n - 1);
      ShiftDiags(w, es, step, o.steps, n - 1);
      ShiftLink(h, es, step, o.steps, n, state, []);
      LaterResults(w, run.after, run.results, o.steps);
    }
    if o.response.None? {
      var end := [Diag("X07WASM_BUDGET_EXCEEDED_HTTP_EFFECTS_LOOPS", true)];
      if OutOfSteps(w, left - 1, run.after, o) {
        assert p.diags == DiagsAt(w, es, p.steps, n + 1) + end;
        assert OutOfSteps(w, left, es, p);
      } else if NotAnswered(h, request, left - 1, run.after, StateOf(frame), run.results, o) {
        assert NotAnswered(h, request, left, es, state, results, p);
      } else {
        TooManyMore(w, maxBytes, es, step, run.diags, o);
      }
    }
  }

  lemma TooManyMore(w: World, maxBytes: u64, es: EffectState, step: Value, diags: seq<Diag>, o: Outcome)
    requires
      var run := ExecuteAll(w, es, EffectsOf(FrameOf(step)));
      run.diags == diags && TooManyBytes(w, maxBytes, run.after, o)
    ensures TooManyBytes(w, maxBytes, es, Prepend(step, diags, o))
  {
    hide ExecuteAll, EffectsOf, FrameOf, TotalBytes, Affordable, EffectStateAt, ResultsAt, DiagsAt, StoppedEarly;
    var run := ExecuteAll(w, es, EffectsOf(FrameOf(step)));
    var p := Prepend(step, diags, o);
    var n := |o.steps|;
    assert p.steps[n] == o.steps[n - 1];
    ShiftStates(w, es, step, o.steps, n - 1);
    ShiftDiags(w, es, step, o.steps, n - 1);
    ShiftResults(w, es, step, o.steps, n, []);
    LaterResults(w, run.after, run.results, o.steps);
    var over := Diag("X07WASM_BUDGET_EXCEEDED_HTTP_EFFECT_RESULT_BYTES", true);
    var ds :| LastStopped(w, maxBytes, run.after, o, ds);
    assert p.diags == DiagsAt(w, es, p.steps, n) + ds + [over];
    assert LastStopped(w, maxBytes, es, p, ds);
  }

  lemma LaterResults(w: World, es: EffectState, results: seq<Value>, steps: seq<Value>)
    requires steps != []
    ensures ResultsAt(w, es, results, steps, |steps|) == ResultsAt(w, es, [], steps, |steps|)
  {
    hide ExecuteAll, EffectsOf, FrameOf, EffectStateAt;
  }

  lemma {:induction false} LoopEndsRight(h: Host, request: Value, maxBytes: u64, left: nat, es: EffectState,
                                         state: Value, results: seq<Value>)
    ensures
      EndsRight(h, request, maxBytes, left, es, state, results, Loop(h, request, maxBytes, left, es, state, results))
    decreases left
  {
    hide Ask, ExecuteWithin, ExecuteAll, EffectsOf, ResponseOf, StateOf, FrameOf, Dispatch, TotalBytes, EndsRight, StepDoc;
    var o := Loop(h, request, maxBytes, left, es, state, results);
    if left == 0 {
      assert o.diags == [] + [Diag(LOOPS_EXCEEDED, true)];
      assert OutOfSteps(h.world, 0, es, o);
      RightByReason(h, request, maxBytes, left, es, state, results, o);
    } else {
      var env := Dispatch(state, request, results);
      var asked := Ask(h, env, REDUCER_CALL_FAILED);
      if asked.NoFrame? {
        assert [] + asked.diags == asked.diags;
        assert NotAnswered(h, request, left, es, state, results, o);
        RightByReason(h, request, maxBytes, left, es, state, results, o);
      } else {
        var frame := asked.frame;
        StepParts(env, frame);
        if ResponseOf(frame).Some? {
          RightWithResponse(h, request, maxBytes, left, es, state, results, StepDoc(env, frame), ResponseOf(frame).value);
        } else {
          match ExecuteWithin(h.world, es, EffectsOf(frame), maxBytes, 0)
          case Over(after, diags) =>
            OverEndsRight(h, request, maxBytes, left, es, state, results, env, frame);
          case Within(run) =>
            BudgetIsExact(h.world, es, EffectsOf(frame), maxBytes, 0);
            LoopEndsRight(h, request, maxBytes, left - 1, run.after, StateOf(frame), run.results);
            EndsRightMore(h, request, maxBytes, left, es, state, results, env, frame,
                          Loop(h, request, maxBytes, left - 1, run.after, StateOf(frame), run.results));
        }
      }
    }
  }

  lemma RightByReason(h: Host, request: Value, maxBytes: u64, left: nat, es: EffectState, state: Value,
                      results: seq<Value>, o: Outcome)
    requires o.response.None?
    requires OutOfSteps(h.world, left, es, o) || NotAnswered(h, request, left, es, state, results, o)
      || TooManyBytes(h.world, maxBytes, es, o)
    ensures EndsRight(h, request, maxBytes, left, es, state, results, o)
  {
  }

  lemma RightWithResponse(h: Host, request: Value, maxBytes: u64, left: nat, es: EffectState, state: Value,
                          results: seq<Value>, step: Value, response: Value)
    ensures EndsRight(h, request, maxBytes, left, es, state, results, Outcome(Some(response), [step], [], es))
  {
    FirstState(h.world, es, [step]);
  }

  lemma OverEndsRight(h: Host, request: Value, maxBytes: u64, left: nat, es: EffectState, state: Value,
                      results: seq<Value>, env: Value, frame: Value)
    requires ExecuteWithin(h.world, es, EffectsOf(frame), maxBytes, 0).Over?
    ensures
      var over := ExecuteWithin(h.world, es, EffectsOf(frame), maxBytes, 0);
      EndsRight(h, request, maxBytes, left, es, state, results,
                Outcome(None, [StepDoc(env, frame)], over.diags + [Diag(RESULT_BYTES_EXCEEDED, true)], over.after))
  {
    hide Ask, ExecuteWithin, ExecuteAll, EffectsOf, ResponseOf, StateOf, FrameOf, Dispatch, TotalBytes, StepDoc, Affordable;
    var w, effs := h.world, EffectsOf(frame);
    var over := ExecuteWithin(w, es, effs, maxBytes, 0);
    var steps := [StepDoc(env, frame)];
    var o := Outcome(None, steps, over.diags + [Diag(RESULT_BYTES_EXCEEDED, true)], over.after);
    StepParts(env, frame);
    var k := OverStops(w, es, effs, maxBytes, 0);
    BudgetIsExact(w, es, effs, maxBytes, 0);
    FirstState(w, es, steps);
    FirstResults(w, es, steps, []);
    assert StoppedAfter(w, maxBytes, es, effs, k, o.after, over.diags);
    assert [] + over.diags == over.diags;
    assert LastStopped(w, maxBytes, es, o, over.diags);
    assert TooManyBytes(w, maxBytes, es, o);
  }

  /** A whole run. */
  function RunLoop(h: Host, request: Value, maxSteps: u32, maxBytes: u64, es: EffectState): Outcome {
    Loop(h, request, maxBytes, maxSteps, es, Null, [])
  }

  /**
   Every run's trace has at most the budgeted steps and is a chain: each dispatch carries the
   previous frame's state and the in-order results of its effects, within the byte budget. Only
   the last frame may carry a response; a run without one reports an error.
   */
  lemma TraceIsChain(h: Host, request: Value, maxSteps: u32, maxBytes: u64, es: EffectState)
    ensures
      var o := RunLoop(h, request, maxSteps, maxBytes, es);
      && |o.steps| <= maxSteps
      && Chain(h, request, maxBytes, es, Null, [], o.steps)
      && o.response == (if o.steps == [] then None else ResponseOf(FrameOf(o.steps[|o.steps| - 1])))
      && (o.response.None? ==> HasError(o.diags))
      && (forall i :: 0 <= i < |o.steps| ==> Exchanged(h, request, es, o.steps, i))
      && EndsRight(h, request, maxBytes, maxSteps, es, Null, [], o)
  {
    hide Loop, GoesOn, Exchanged, EndsRight, Linked;
    LoopIsGood(h, request, maxBytes, maxSteps, es, Null, []);
    LoopEndsRight(h, request, maxBytes, maxSteps, es, Null, []);
    var o := RunLoop(h, request, maxSteps, maxBytes, es);
    forall i | 0 <= i < |o.steps| ensures Exchanged(h, request, es, o.steps, i) {
      LinkedIsExchange(h, request, es, o.steps, i);
    }
  }

  /** Step i holds exactly a dispatch of the state and results so far and the request, and the frame the core gave for it. */
  ghost predicate Exchanged(h: Host, request: Value, es: EffectState, steps: seq<Value>, i: nat)
    requires i < |steps|
  {
    exists env: Value, frame: Value ::
      && IsStep(steps[i], env, frame) && AnsweredBy(h, env, frame)
      && IsDispatch(env, StateAt(Null, steps, i), request, ResultsAt(h.world, es, [], steps, i))
  }

  lemma LinkedIsExchange(h: Host, request: Value, es: EffectState, steps: seq<Value>, i: nat)
    requires i < |steps| && Linked(h, request, es, Null, [], steps, i)
    ensures Exchanged(h, request, es, steps, i)
  {
    hide Ask, Dispatch, StepDoc, StateAt, ResultsAt, IsDispatch, IsStep, AnsweredBy, FrameOf;
    var state, results := StateAt(Null, steps, i), ResultsAt(h.world, es, [], steps, i);
    var env, frame := Dispatch(state, request, results), FrameOf(steps[i]);
    DispatchSays(state, request, results);
    StepSays(env, frame);
    AskIff(h, env, REDUCER_CALL_FAILED, frame);
  }

  // ---------- the code ----------

  /** Runs the effects of one frame; None once the result bytes pass the budget. */
  method RunEffects(h: Host, effs: seq<Value>, maxBytes: u64, es: HttpEffectState, diagnostics: seq<Diag>)
    returns (results: Option<seq<Value>>, diags: seq<Diag>)
    modifies es
    ensures
      match ExecuteWithin(h.world, old(es.State()), effs, maxBytes, 0)
      case Within(run) => results == Some(run.results) && es.State() == run.after && diags == diagnostics + run.diags
      case Over(after, more) =>
        results == None && es.State() == after && diags == diagnostics + more + [Diag(RESULT_BYTES_EXCEEDED, true)]
  {
    hide Execute, ResultPayloadBytes;
    ghost var goal := ExecuteWithin(h.world, es.State(), effs, maxBytes, 0);
    var next: seq<Value> := [];
    var used: u64 := 0;
    diags := diagnostics;
    ghost var mine: seq<Diag> := [];
    for i := 0 to |effs|
      invariant diags == diagnostics + mine
      invariant goal == After(next, mine, ExecuteWithin(h.world, es.State(), effs[i..], maxBytes, used))
    {
      ghost var x := Execute(h.world, es.State(), effs[i]);
      ghost var rest := ExecuteWithin(h.world, es.State(), effs[i..], maxBytes, used);
      assert effs[i..][0] == effs[i] && effs[i..][1..] == effs[i + 1..];
      var result;
      result, diags := es.ExecuteEffect(h.world, effs[i], diags);
      used := SaturatingAdd(used, ResultPayloadBytes(result));
      if used > maxBytes {
        assert rest == Over(x.after, x.diags);
        assert diags == diagnostics + (mine + x.diags);
        diags := diags + [Diag(RESULT_BYTES_EXCEEDED, true)];
        return None, diags;
      }
      AfterMore(next, mine, result, x.diags, ExecuteWithin(h.world, es.State(), effs[i + 1..], maxBytes, used));
      next := next + [result];
      mine := mine + x.diags;
    }
    results := Some(next);
    assert effs[|effs|..] == [] && next + [] == next && mine + [] == mine;
  }

  /** The whole of a bounded run, from what is done and what the rest gives. */
  ghost function After(results: seq<Value>, diags: seq<Diag>, rest: Bounded): Bounded {
    match rest
    case Within(run) => Within(run.(results := results + run.results, diags := diags + run.diags))
    case Over(after, more) => Over(after, diags + more)
  }

  lemma AfterMore(results: seq<Value>, diags: seq<Diag>, result: Value, more: seq<Diag>, rest: Bounded)
    ensures After(results + [result], diags + more, rest) == After(results, diags, After([result], more, rest))
  {
    match rest
    case Within(run) =>
      assert results + [result] + run.results == results + ([result] + run.results);
      assert diags + more + run.diags == diags + (more + run.diags);
    case Over(after, ds) =>
      assert diags + more + ds == diags + (more + ds);
  }

  /** The whole of a run, from the steps and diagnostics done and what the rest gives. */
  ghost function Joined(steps: seq<Value>, diags: seq<Diag>, rest: Outcome): Outcome {
    rest.(steps := steps + rest.steps, diags := diags + rest.diags)
  }

  lemma JoinedIs(steps: seq<Value>, diags: seq<Diag>, rest: Outcome, before: seq<Diag>)
    ensures
      var o := Joined(steps, diags, rest);
      && o.response == rest.response && o.after == rest.after
      && o.steps == (if rest.steps == [] then steps else steps + rest.steps)
      && before + o.diags == (if rest.diags == [] then before + diags else before + diags + rest.diags)
  {
    assert before + (diags + rest.diags) == before + diags + rest.diags;
    assert diags + [] == diags && steps + [] == steps;
  }

  lemma JoinedNothing(o: Outcome)
    ensures Joined([], [], o) == o
  {
    assert [] + o.steps == o.steps && [] + o.diags == o.diags;
  }

  lemma JoinedMore(steps: seq<Value>, diags: seq<Diag>, step: Value, more: seq<Diag>, rest: Outcome)
    ensures Joined(steps + [step], diags + more, rest) == Joined(steps, diags, Prepend(step, more, rest))
  {
    assert steps + [step] + rest.steps == steps + ([step] + rest.steps);
    assert diags + more + rest.diags == diags + (more + rest.diags);
  }

  /** The four ways one iteration can go. */
  lemma LoopStops(h: Host, request: Value, maxBytes: u64, left: nat, es: EffectState, state: Value, results: seq<Value>)
    requires left > 0 && Ask(h, Dispatch(state, request, results), REDUCER_CALL_FAILED).NoFrame?
    ensures
      Loop(h, request, maxBytes, left, es, state, results)
      == Outcome(None, [], Ask(h, Dispatch(state, request, results), REDUCER_CALL_FAILED).diags, es)
  {
    hide Ask, Dispatch;
  }

  lemma LoopResponds(h: Host, request: Value, maxBytes: u64, left: nat, es: EffectState, state: Value,
                     results: seq<Value>, frame: Value)
    requires left > 0 && Ask(h, Dispatch(state, request, results), REDUCER_CALL_FAILED) == Frame(frame)
    requires ResponseOf(frame).Some?
    ensures
      Loop(h, request, maxBytes, left, es, state, results)
      == Outcome(ResponseOf(frame), [StepDoc(Dispatch(state, request, results), frame)], [], es)
  {
    hide Ask, Dispatch;
  }

  lemma LoopOverBudget(h: Host, request: Value, maxBytes: u64, left: nat, es: EffectState, state: Value,
                       results: seq<Value>, frame: Value)
    requires left > 0 && Ask(h, Dispatch(state, request, results), REDUCER_CALL_FAILED) == Frame(frame)
    requires ResponseOf(frame).None? && ExecuteWithin(h.world, es, EffectsOf(frame), maxBytes, 0).Over?
    ensures
      var over := ExecuteWithin(h.world, es, EffectsOf(frame), maxBytes, 0);
      Loop(h, request, maxBytes, left, es, state, results)
      == Outcome(None, [StepDoc(Dispatch(state, request, results), frame)],
                 over.diags + [Diag(RESULT_BYTES_EXCEEDED, true)], over.after)
  {
    hide Ask, Dispatch, ExecuteWithin;
  }

  lemma LoopGoesOn(h: Host, request: Value, maxBytes: u64, left: nat, es: EffectState, state: Value,
                   results: seq<Value>, frame: Value)
    requires left > 0 && Ask(h, Dispatch(state, request, results), REDUCER_CALL_FAILED) == Frame(frame)
    requires ResponseOf(frame).None? && ExecuteWithin(h.world, es, EffectsOf(frame), maxBytes, 0).Within?
    ensures
      var run := ExecuteWithin(h.world, es, EffectsOf(frame), maxBytes, 0).run;
      Loop(h, request, maxBytes, left, es, state, results)
      == Prepend(StepDoc(Dispatch(state, request, results), frame), run.diags,
                 Loop(h, request, maxBytes, left - 1, run.after, StateOf(frame), run.results))
  {
    hide Ask, Dispatch, ExecuteWithin, StateOf, ResponseOf, EffectsOf, Prepend, StepDoc;
  }

  method RunHttpReducerLoop(h: Host, request: Value, maxSteps: u32, maxBytes: u64, es: HttpEffectState,
                            diagnostics: seq<Diag>)
    returns (response: Option<Value>, trace: Value, diags: seq<Diag>)
    modifies es
    ensures
      var o := RunLoop(h, request, maxSteps, maxBytes, old(es.State()));
      response == o.response && trace == TraceDoc(o.steps) && diags == diagnostics + o.diags && es.State() == o.after
  {
    hide Ask, ExecuteWithin, Dispatch, EffectsOf, StateOf, TraceDoc, StepDoc, Loop, Prepend, Get, Joined;
    ghost var goal := RunLoop(h, request, maxSteps, maxBytes, es.State());
    var steps: seq<Value> := [];
    var state: Value := Null;
    var results: seq<Value> := [];
    ghost var mine: seq<Diag> := [];
    diags := diagnostics;
    JoinedNothing(goal);
    for i := 0 to maxSteps
      invariant diags == diagnostics + mine
      invariant goal == Joined(steps, mine, Loop(h, request, maxBytes, maxSteps - i, es.State(), state, results))
    {
      ghost var left := maxSteps - i;
      var env := Dispatch(state, request, results);
      var asked := Ask(h, env, REDUCER_CALL_FAILED);
      if asked.NoFrame? {
        LoopStops(h, request, maxBytes, left, es.State(), state, results);
        diags := diags + asked.diags;
        JoinedIs(steps, mine, Outcome(None, [], asked.diags, es.State()), diagnostics);
        return None, TraceDoc(steps), diags;
      }
      var frame := asked.frame;
      ghost var done := steps;
      steps := steps + [StepDoc(env, frame)];
      var r := Get(frame, RESPONSE);
      if r.Some? && !r.value.Null? {
        LoopResponds(h, request, maxBytes, left, es.State(), state, results, frame);
        JoinedIs(done, mine, Outcome(r, [StepDoc(env, frame)], [], es.State()), diagnostics);
        return r, TraceDoc(steps), diags;
      }
      ghost var before := es.State();
      var next, ds := RunEffects(h, EffectsOf(frame), maxBytes, es, diags);
      ghost var ran := ExecuteWithin(h.world, before, EffectsOf(frame), maxBytes, 0);
      diags := ds;
      if next.None? {
        LoopOverBudget(h, request, maxBytes, left, before, state, results, frame);
        ghost var over := ran.diags + [Diag(RESULT_BYTES_EXCEEDED, true)];
        assert diags == diagnostics + mine + over;
        JoinedIs(done, mine, Outcome(None, [StepDoc(env, frame)], over, ran.after), diagnostics);
        return None, TraceDoc(steps), diags;
      }
      LoopGoesOn(h, request, maxBytes, left, before, state, results, frame);
      state := StateOf(frame);
      results := next.value;
      JoinedMore(done, mine, StepDoc(env, frame), ran.run.diags,
                 Loop(h, request, maxBytes, left - 1, es.State(), state, results));
      assert diags == diagnostics + (mine + ran.run.diags);
      mine := mine + ran.run.diags;
    }
    LoopRunsOut(h, request, maxBytes, es.State(), state, results);
    diags := diags + [Diag(LOOPS_EXCEEDED, true)];
    JoinedIs(steps, mine, Outcome(None, [], [Diag(LOOPS_EXCEEDED, true)], es.State()), diagnostics);
    response, trace := None, TraceDoc(steps);
  }

  lemma LoopRunsOut(h: Host, request: Value, maxBytes: u64, es: EffectState, state: Value, results: seq<Value>)
    ensures Loop(h, request, maxBytes, 0, es, state, results) == Outcome(None, [], [Diag(LOOPS_EXCEEDED, true)], es)
  {
  }
}
