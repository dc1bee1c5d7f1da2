/**
 Injecting the legacy canonical-ABI glue into a decoded module: the imperative
 rewriting, its specification, and what it preserves.
 */
module WasmInject {
  import opened Words
  import opened Allocator
  import opened WasmMachine
  import opened WasmExtend
  import opened EmittedRealloc
  import opened EmittedSolve

  datatype ExternKind = FuncExport | TableExport | MemoryExport | GlobalExport | TagExport
  datatype Export = Export(name: string, kind: ExternKind, index: nat)
  datatype MemType = MemType(minimum: nat, maximum: Option<nat>, memory64: bool, shared: bool, pageSizeLog2: Option<nat>)
  datatype GlobalDef = GlobalDef(ty: ValType, mutable: bool, shared: bool, init: seq<byte>)
  datatype Custom = Custom(name: string, data: seq<byte>)

  datatype Payload =
    | TypeSection(types: seq<FuncType>) | ImportSection(count: nat) | FunctionSection(typeIdxs: seq<nat>)
    | MemorySection(mems: seq<MemType>) | TableSection | TagSection | GlobalSection(globals: seq<GlobalDef>)
    | ExportSection(exports: seq<Export>) | StartSection | ElementSection | DataCountSection(dataCount: nat)
    | DataSection(segments: seq<seq<byte>>) | CodeStart | CodeEntry(body: FuncBody)
    | CustomSection(custom: Custom) | UnknownSection(id: nat) | EndOrVersion | OtherPayload

  datatype Module = Module(types: seq<FuncType>, funcs: seq<nat>, mems: seq<MemType>, globals: seq<GlobalDef>,
                           exports: seq<Export>, dataCount: Option<nat>, code: seq<FuncBody>,
                           data: seq<seq<byte>>, customs: seq<Custom>)

  datatype InjectError =
    | ImportsNotSupported | TablesNotSupported | TagsNotSupported | StartNotSupported | ElementsNotSupported
    | UnknownNotSupported | PayloadNotSupported | LengthMismatch | MissingSolve | MissingHeapBase
    | TooMany | RefTypesNotSupported | Memory64NotSupported | InitMissingEnd | ExportExists | ValidationFailed

  datatype Result<+T> = Ok(value: T) | Err(error: InjectError)

  const EMPTY_MODULE := Module([], [], [], [], [], None, [], [], [])

  const CABI_REALLOC := "cabi_realloc"
  const CABI_POST := "cabi_post_x07:solve/handler@0.1.0#solve"
  const SOLVE := "x07:solve/handler@0.1.0#solve"
  const SOLVE_V2 := "x07_solve_v2"
  const HEAP_BASE := "__heap_base"

  const POST_TYPE := FuncType([I32], [])

  // ---------- collecting the payloads ----------

  function CollectOne(m: Module, p: Payload): Result<Module> {
    match p
    case TypeSection(ts) => Ok(m.(types := m.types + ts))
    case ImportSection(n) => if n != 0 then Err(ImportsNotSupported) else Ok(m)
    case FunctionSection(fs) => Ok(m.(funcs := m.funcs + fs))
    case MemorySection(ms) => Ok(m.(mems := m.mems + ms))
    case TableSection => Err(TablesNotSupported)
    case TagSection => Err(TagsNotSupported)
    case GlobalSection(gs) => Ok(m.(globals := m.globals + gs))
    case ExportSection(es) => Ok(m.(exports := m.exports + es))
    case StartSection => Err(StartNotSupported)
    case ElementSection => Err(ElementsNotSupported)
    case DataCountSection(n) => Ok(m.(dataCount := Some(n)))
    case DataSection(ds) => Ok(m.(data := m.data + ds))
    case CodeStart => Ok(m)
    case CodeEntry(body) => Ok(m.(code := m.code + [body]))
    case CustomSection(c) => Ok(m.(customs := m.customs + [c]))
    case UnknownSection(_) => Err(UnknownNotSupported)
    case EndOrVersion => Ok(m)
    case OtherPayload => Err(PayloadNotSupported)
  }

  function Collect(m: Module, ps: seq<Payload>): Result<Module>
    decreases |ps|
  {
    if ps == [] then Ok(m)
    else
      var r := CollectOne(m, ps[0]);
      if r.Err? then r else Collect(r.value, ps[1..])
  }

  // ---------- what collecting gathers ----------

  /** Why a payload cannot be carried over, if it cannot. */
  function Refusal(p: Payload): Option<InjectError> {
    match p
    case ImportSection(count) => if count > 0 then Some(ImportsNotSupported) else None
    case TableSection => Some(TablesNotSupported)
    case TagSection => Some(TagsNotSupported)
    case StartSection => Some(StartNotSupported)
    case ElementSection => Some(ElementsNotSupported)
    case UnknownSection(_) => Some(UnknownNotSupported)
    case OtherPayload => Some(PayloadNotSupported)
    case _ => None
  }

  /** Payload i is the first that is refused. */
  ghost predicate RefusedFirst(ps: seq<Payload>, i: nat) {
    i < |ps| && Refusal(ps[i]).Some? && forall j :: 0 <= j < i ==> Refusal(ps[j]).None?
  }

  ghost predicate AllSupported(ps: seq<Payload>) { forall i :: 0 <= i < |ps| ==> Refusal(ps[i]).None? }

  /** What the payloads carry of one kind, in order. */
  function Carried<T>(ps: seq<Payload>, part: Payload -> seq<T>): seq<T> {
    if ps == [] then [] else part(ps[0]) + Carried(ps[1..], part)
  }

  function TypesIn(p: Payload): seq<FuncType> { if p.TypeSection? then p.types else [] }
  function FuncsIn(p: Payload): seq<nat> { if p.FunctionSection? then p.typeIdxs else [] }
  function MemsIn(p: Payload): seq<MemType> { if p.MemorySection? then p.mems else [] }
  function GlobalsIn(p: Payload): seq<GlobalDef> { if p.GlobalSection? then p.globals else [] }
  function ExportsIn(p: Payload): seq<Export> { if p.ExportSection? then p.exports else [] }
  function CodeIn(p: Payload): seq<FuncBody> { if p.CodeEntry? then [p.body] else [] }
  function DataIn(p: Payload): seq<seq<byte>> { if p.DataSection? then p.segments else [] }
  function CustomsIn(p: Payload): seq<Custom> { if p.CustomSection? then [p.custom] else [] }
  function CountsIn(p: Payload): seq<nat> { if p.DataCountSection? then [p.dataCount] else [] }

  function LastOf(counts: seq<nat>, otherwise: Option<nat>): Option<nat> {
    if counts == [] then otherwise else Some(counts[|counts| - 1])
  }

  /** m holds exactly what the payloads carry, kind by kind and in order, with the last data count. */
  ghost predicate Holds(m: Module, ps: seq<Payload>) {
    && m.types == Carried(ps, TypesIn) && m.funcs == Carried(ps, FuncsIn) && m.mems == Carried(ps, MemsIn)
    && m.globals == Carried(ps, GlobalsIn) && m.exports == Carried(ps, ExportsIn) && m.code == Carried(ps, CodeIn)
    && m.data == Carried(ps, DataIn) && m.customs == Carried(ps, CustomsIn)
    && m.dataCount == LastOf(Carried(ps, CountsIn), None)
  }

  lemma {:induction false} CarriedMore<T>(ps: seq<Payload>, p: Payload, part: Payload -> seq<T>)
    ensures Carried(ps + [p], part) == Carried(ps, part) + part(p)
    decreases |ps|
  {
    if ps == [] {
      assert ([p])[1..] == [];
    } else {
      assert (ps + [p])[1..] == ps[1..] + [p];
      CarriedMore(ps[1..], p, part);
    }
  }

  lemma LastOfMore(a: seq<nat>, b: seq<nat>)
    ensures LastOf(a + b, None) == LastOf(b, LastOf(a, None))
  {
    if b == [] { assert a + b == a; } else { assert (a + b)[|a + b| - 1] == b[|b| - 1]; }
  }

  lemma OneAdds(m: Module, p: Payload)
    ensures CollectOne(m, p)
         == if Refusal(p).Some? then Err(Refusal(p).value)
            else Ok(Module(m.types + TypesIn(p), m.funcs + FuncsIn(p), m.mems + MemsIn(p), m.globals + GlobalsIn(p),
                           m.exports + ExportsIn(p), LastOf(CountsIn(p), m.dataCount), m.code + CodeIn(p),
                           m.data + DataIn(p), m.customs + CustomsIn(p)))
  {
    assert m.types + [] == m.types && m.funcs + [] == m.funcs && m.mems + [] == m.mems && m.globals + [] == m.globals;
    assert m.exports + [] == m.exports && m.code + [] == m.code && m.data + [] == m.data && m.customs + [] == m.customs;
  }

  /** One more supported payload adds what it carries. */
  lemma HoldsMore(m: Module, ps: seq<Payload>, p: Payload)
    requires Holds(m, ps)
    ensures CollectOne(m, p) == if Refusal(p).Some? then Err(Refusal(p).value) else Ok(CollectOne(m, p).value)
    ensures CollectOne(m, p).Ok? ==> Holds(CollectOne(m, p).value, ps + [p])
  {
    OneAdds(m, p);
    assert Refusal(p).Some? ==> CollectOne(m, p) == Err(Refusal(p).value);
    LastOfMore(Carried(ps, CountsIn), CountsIn(p));
    hide CollectOne, Refusal, Carried;
    CarriedMore(ps, p, TypesIn);
    CarriedMore(ps, p, FuncsIn);
    CarriedMore(ps, p, MemsIn);
    CarriedMore(ps, p, GlobalsIn);
    CarriedMore(ps, p, ExportsIn);
    CarriedMore(ps, p, CodeIn);
    CarriedMore(ps, p, DataIn);
    CarriedMore(ps, p, CustomsIn);
    CarriedMore(ps, p, CountsIn);
    if Refusal(p).None? {
      var n := CollectOne(m, p).value;
      assert n.types == Carried(ps + [p], TypesIn);
      assert n.funcs == Carried(ps + [p], FuncsIn);
      assert n.data == Carried(ps + [p], DataIn);
      assert n.dataCount == LastOf(Carried(ps + [p], CountsIn), None);
      assert n.code == Carried(ps + [p], CodeIn);
    }
  }

  /** Collecting is refused by the first unsupported payload, and otherwise gathers everything the payloads carry. */
  ghost predicate Gathers(ps: seq<Payload>, r: Result<Module>) {
    && (r.Ok? <==> AllSupported(ps))
    && (r.Ok? ==> Holds(r.value, ps))
    && (r.Err? ==> exists i: nat :: RefusedFirst(ps, i) && r.error == Refusal(ps[i]).value)
  }

  lemma {:induction false} CollectFrom(m: Module, done: seq<Payload>, ps: seq<Payload>)
    requires Holds(m, done) && AllSupported(done)
    ensures Gathers(done + ps, Collect(m, ps))
    decreases |ps|
  {
    hide CollectOne, Holds, Refusal;
    if ps == [] {
      assert done + ps == done;
    } else {
      HoldsMore(m, done, ps[0]);
      var one := CollectOne(m, ps[0]);
      assert done + [ps[0]] + ps[1..] == done + ps;
      if one.Err? {
        assert RefusedFirst(done + ps, |done|);
      } else {
        CollectFrom(one.value, done + [ps[0]], ps[1..]);
      }
    }
  }

  lemma CollectGathers(ps: seq<Payload>)
    ensures Gathers(ps, Collect(EMPTY_MODULE, ps))
  {
    hide Gathers;
    assert Holds(EMPTY_MODULE, []);
    CollectFrom(EMPTY_MODULE, [], ps);
    assert [] + ps == ps;
  }

  // ---------- the rewriting, as a specification ----------

  /** The last export with this name and kind decides. */
  function LastExport(es: seq<Export>, name: string, kind: ExternKind): Option<nat> {
    if es == [] then None
    else
      var e := es[|es| - 1];
      if e.name == name && e.kind == kind then Some(e.index) else LastExport(es[..|es| - 1], name, kind)
  }

  predicate HasRef(t: FuncType) { RefType in t.params || RefType in t.results }

  predicate Named(es: seq<Export>, name: string) { exists i :: 0 <= i < |es| && es[i].name == name }

  /** Where the injected indices land. */
  function WiringOf(m: Module, solve: nat, heapBase: nat): Wiring {
    var g := |m.globals|;
    Wiring(solve, |m.funcs|, heapBase, g, g + 1, g + 2)
  }

  const ZERO_GLOBAL := GlobalDef(I32, true, false, [0x41, 0x00, 0x0b])

  function AddGlue(m: Module, w: Wiring, cap: u32, maxOut: u32): Module {
    m.(types := m.types + [REALLOC_TYPE, POST_TYPE, SOLVE_TYPE],
       funcs := m.funcs + [|m.types|, |m.types| + 1, |m.types| + 2],
       globals := m.globals + [ZERO_GLOBAL, ZERO_GLOBAL, ZERO_GLOBAL],
       exports := m.exports + [Export(CABI_REALLOC, FuncExport, |m.funcs|),
                               Export(CABI_POST, FuncExport, |m.funcs| + 1),
                               Export(SOLVE, FuncExport, |m.funcs| + 2)],
       code := m.code + [EmitCabiRealloc(w.heapBase, w.heapPtr), EmitCabiPost(), EmitSolveWrapper(w, cap, maxOut)])
  }

  function ProgramOf(m: Module): Program { Program(m.types, m.funcs, m.code) }

  function IndexSpace(m: Module, kind: ExternKind): nat {
    match kind
    case FuncExport => |m.funcs|
    case MemoryExport => |m.mems|
    case GlobalExport => |m.globals|
    case _ => 0
  }

  predicate ExportsOk(m: Module) {
    && (forall i :: 0 <= i < |m.exports| ==> m.exports[i].index < IndexSpace(m, m.exports[i].kind))
    && (forall i, j :: 0 <= i < j < |m.exports| ==> m.exports[i].name != m.exports[j].name)
  }

  /** Well-formedness: indices in scope and export names distinct. */
  predicate WellFormed(m: Module) {
    ScopedProgram(ProgramOf(m), |m.globals|) && ExportsOk(m)
  }

  /** What type checking the injected bodies asks of the module they are added to. */
  predicate CalleesTyped(m: Module, w: Wiring) {
    && w.solve < |m.funcs| && m.funcs[w.solve] < |m.types| && m.types[m.funcs[w.solve]] == SOLVE_V2_TYPE
    && w.heapBase < |m.globals| && m.globals[w.heapBase].ty == I32
  }

  /** The first reason the module cannot be re-encoded. */
  function EncodeError(m: Module): Option<InjectError> {
    if exists i :: 0 <= i < |m.types| && HasRef(m.types[i]) then Some(RefTypesNotSupported)
    else if exists i :: 0 <= i < |m.mems| && m.mems[i].memory64 then Some(Memory64NotSupported)
    else
      var g := GlobalError(m.globals);
      if g.Some? then g
      else if Named(m.exports, CABI_REALLOC) || Named(m.exports, CABI_POST) || Named(m.exports, SOLVE)
      then Some(ExportExists)
      else None
  }

  function OneGlobalError(g: GlobalDef): Option<InjectError> {
    if |g.init| == 0 || g.init[|g.init| - 1] != 0x0b then Some(InitMissingEnd)
    else if g.ty == RefType then Some(RefTypesNotSupported)
    else None
  }

  function GlobalError(gs: seq<GlobalDef>): Option<InjectError> {
    if gs == [] then None
    else
      var e := GlobalError(gs[..|gs| - 1]);
      if e.Some? then e else OneGlobalError(gs[|gs| - 1])
  }

  function Rewrite(m: Module, cap: u32, maxOut: u32): Result<Module> {
    if |m.code| != |m.funcs| then Err(LengthMismatch)
    else
      var solve, heapBase := LastExport(m.exports, SOLVE_V2, FuncExport), LastExport(m.exports, HEAP_BASE, GlobalExport);
      if solve.None? then Err(MissingSolve)
      else if heapBase.None? then Err(MissingHeapBase)
      else if |m.types| >= TWO32 || |m.funcs| >= TWO32 || |m.globals| >= TWO32 then Err(TooMany)
      else
        var e := EncodeError(m);
        if e.Some? then Err(e.value)
        else
          var w := WiringOf(m, solve.value, heapBase.value);
          var out := AddGlue(m, w, cap, maxOut);
          if WellFormed(out) && CalleesTyped(m, w) then Ok(out) else Err(ValidationFailed)
  }

  function Inject(ps: seq<Payload>, cap: u32, maxOut: u32): Result<Module> {
    var m := Collect(EMPTY_MODULE, ps);
    if m.Err? then m else Rewrite(m.value, cap, maxOut)
  }

  // ---------- the rewriting, as it is carried out ----------
  method CollectPayloads(ps: seq<Payload>) returns (r: Result<Module>)
    ensures r == Collect(EMPTY_MODULE, ps)
    ensures Gathers(ps, r)
  {
    hide Gathers;
    var m := EMPTY_MODULE;
    for i := 0 to |ps|
      invariant Collect(EMPTY_MODULE, ps) == Collect(m, ps[i..])
    {
      var one := CollectOne(m, ps[i]);
      if one.Err? {
        CollectGathers(ps);
        return one;
      }
      m := one.value;
      assert ps[i..][1..] == ps[i + 1..];
    }
    CollectGathers(ps);
    r := Ok(m);
  }

  method FindExports(es: seq<Export>) returns (solve: Option<nat>, heapBase: Option<nat>)
    ensures solve == LastExport(es, SOLVE_V2, FuncExport)
    ensures heapBase == LastExport(es, HEAP_BASE, GlobalExport)
  {
    solve, heapBase := None, None;
    for i := 0 to |es|
      invariant solve == LastExport(es[..i], SOLVE_V2, FuncExport)
      invariant heapBase == LastExport(es[..i], HEAP_BASE, GlobalExport)
    {
      assert es[..i + 1][..i] == es[..i];
      if es[i].name == SOLVE_V2 && es[i].kind == FuncExport {
        solve := Some(es[i].index);
      } else if es[i].name == HEAP_BASE && es[i].kind == GlobalExport {
        heapBase := Some(es[i].index);
      }
    }
    assert es[..|es|] == es;
  }

  method EncodeGlobals(gs: seq<GlobalDef>) returns (r: Result<seq<GlobalDef>>)
    ensures r == if GlobalError(gs).Some? then Err(GlobalError(gs).value) else Ok(gs)
  {
    var out := [];
    for i := 0 to |gs|
      invariant out == gs[..i] && GlobalError(gs[..i]).None?
    {
      assert gs[..i + 1][..i] == gs[..i];
      var init := gs[i].init;
      if |init| == 0 || init[|init| - 1] != 0x0b {
        FirstGlobalErrorStays(gs, i);
        return Err(InitMissingEnd);
      }
      if gs[i].ty == RefType {
        FirstGlobalErrorStays(gs, i);
        return Err(RefTypesNotSupported);
      }
      assert init[..|init| - 1] + [0x0b] == init;
      out := out + [gs[i].(init := init[..|init| - 1] + [0x0b])];
    }
    assert gs[..|gs|] == gs;
    r := Ok(out);
  }

  lemma {:induction false} FirstGlobalErrorStays(gs: seq<GlobalDef>, i: nat)
    requires i < |gs| && GlobalError(gs[..i]).None? && OneGlobalError(gs[i]).Some?
    ensures GlobalError(gs) == OneGlobalError(gs[i])
    decreases |gs|
  {
    if i == |gs| - 1 {
    } else {
      assert gs[..|gs| - 1][..i] == gs[..i];
      FirstGlobalErrorStays(gs[..|gs| - 1], i);
    }
  }

  method InjectSolveHandlerLegacyAbi(ps: seq<Payload>, cap: u32, maxOut: u32) returns (r: Result<Module>)
    ensures r == Inject(ps, cap, maxOut)
  {
    hide EmitCabiRealloc, EmitSolveWrapper, WellFormed, CalleesTyped, LastExport, GlobalError, Collect, Gathers;
    var collected := CollectPayloads(ps);
    if collected.Err? { return collected; }
    var m := collected.value;
    if |m.code| != |m.funcs| { return Err(LengthMismatch); }
    var solve, heapBase := FindExports(m.exports);
    if solve.None? { return Err(MissingSolve); }
    if heapBase.None? { return Err(MissingHeapBase); }
    if |m.types| >= TWO32 || |m.funcs| >= TWO32 || |m.globals| >= TWO32 { return Err(TooMany); }
    var w := WiringOf(m, solve.value, heapBase.value);

    var types: seq<FuncType> := [];
    for i := 0 to |m.types|
      invariant types == m.types[..i] && forall j :: 0 <= j < i ==> !HasRef(m.types[j])
    {
      if HasRef(m.types[i]) { return Err(RefTypesNotSupported); }
      types := types + [m.types[i]];
    }
    types := types + [REALLOC_TYPE];
    types := types + [POST_TYPE];
    types := types + [SOLVE_TYPE];

    var funcs := m.funcs + [|m.types|] + [|m.types| + 1] + [|m.types| + 2];

    var mems: seq<MemType> := [];
    for i := 0 to |m.mems|
      invariant mems == m.mems[..i] && forall j :: 0 <= j < i ==> !m.mems[j].memory64
    {
      if m.mems[i].memory64 { return Err(Memory64NotSupported); }
      mems := mems + [m.mems[i]];
    }

    var globals := EncodeGlobals(m.globals);
    if globals.Err? { return Err(globals.error); }
    var allGlobals := globals.value + [ZERO_GLOBAL] + [ZERO_GLOBAL] + [ZERO_GLOBAL];

    var exports: seq<Export> := [];
    for i := 0 to |m.exports|
      invariant exports == m.exports[..i]
    {
      exports := exports + [m.exports[i]];
    }
    if Named(m.exports, CABI_REALLOC) || Named(m.exports, CABI_POST) || Named(m.exports, SOLVE) {
      return Err(ExportExists);
    }
    exports := exports + [Export(CABI_REALLOC, FuncExport, w.realloc)];
    exports := exports + [Export(CABI_POST, FuncExport, w.realloc + 1)];
    exports := exports + [Export(SOLVE, FuncExport, w.realloc + 2)];

    var code: seq<FuncBody> := [];
    for i := 0 to |m.code|
      invariant code == m.code[..i]
    {
      code := code + [m.code[i]];
    }
    code := code + [EmitCabiRealloc(w.heapBase, w.heapPtr)];
    code := code + [EmitCabiPost()];
    code := code + [EmitSolveWrapper(w, cap, maxOut)];

    var out := Module(types, funcs, mems, allGlobals, exports, m.dataCount, code, m.data, m.customs);
    assert out == AddGlue(m, w, cap, maxOut);
    if WellFormed(out) && CalleesTyped(m, w) { r := Ok(out); } else { r := Err(ValidationFailed); }
  }

  // ---------- what is accepted ----------

  ghost predicate HasExport(es: seq<Export>, name: string, kind: ExternKind, index: nat) {
    exists i :: 0 <= i < |es| && es[i] == Export(name, kind, index)
      && forall j :: i < j < |es| ==> !IsExport(es[j], name, kind)
  }

  predicate IsExport(e: Export, name: string, kind: ExternKind) { e.name == name && e.kind == kind }

  lemma HasExportMore(es: seq<Export>, e: Export, name: string, kind: ExternKind, index: nat)
    ensures HasExport(es + [e], name, kind, index)
        <==> if IsExport(e, name, kind) then e.index == index else HasExport(es, name, kind, index)
  {
    var all := es + [e];
    assert forall i :: 0 <= i < |es| ==> all[i] == es[i];
    assert all[|es|] == e;
    if !IsExport(e, name, kind) && HasExport(es, name, kind, index) {
      var i :| 0 <= i < |es| && es[i] == Export(name, kind, index)
        && forall j :: i < j < |es| ==> !IsExport(es[j], name, kind);
      assert all[i] == Export(name, kind, index);
    }
  }

  lemma {:induction false} LastExportIff(es: seq<Export>, name: string, kind: ExternKind, index: nat)
    ensures LastExport(es, name, kind) == Some(index) <==> HasExport(es, name, kind, index)
  {
    hide HasExport;
    if es != [] {
      var n := |es| - 1;
      LastExportIff(es[..n], name, kind, index);
      HasExportMore(es[..n], es[n], name, kind, index);
      assert es[..n] + [es[n]] == es;
    } else {
      NoExports(name, kind, index);
    }
  }

  lemma NoExports(name: string, kind: ExternKind, index: nat)
    ensures !HasExport([], name, kind, index)
  {
  }

  /** An initialiser without its end byte, or a global of a reference type. */
  predicate BadGlobal(g: GlobalDef) { g.init == [] || g.init[|g.init| - 1] != 0x0b || g.ty == RefType }

  lemma {:induction false} GlobalErrorIff(gs: seq<GlobalDef>)
    ensures GlobalError(gs).Some? <==> exists i :: 0 <= i < |gs| && BadGlobal(gs[i])
    ensures GlobalError(gs).Some? ==> GlobalError(gs).value in {InitMissingEnd, RefTypesNotSupported}
  {
    if gs != [] {
      var n := |gs| - 1;
      GlobalErrorIff(gs[..n]);
      assert forall i :: 0 <= i < n ==> gs[..n][i] == gs[i];
    }
  }

  /** Everything the rewriting asks of a collected module. */
  ghost predicate Injectable(m: Module, solve: nat, heapBase: nat, cap: u32, maxOut: u32) {
    && |m.code| == |m.funcs|
    && HasExport(m.exports, "x07_solve_v2", FuncExport, solve) && HasExport(m.exports, "__heap_base", GlobalExport, heapBase)
    && |m.types| < TWO32 && |m.funcs| < TWO32 && |m.globals| < TWO32
    && (forall t :: t in m.types ==> RefType !in t.params && RefType !in t.results)
    && (forall mem :: mem in m.mems ==> !mem.memory64)
    && (forall g :: g in m.globals ==> !BadGlobal(g))
    && (forall e :: e in m.exports ==>
          e.name != "cabi_realloc" && e.name != "cabi_post_x07:solve/handler@0.1.0#solve"
          && e.name != "x07:solve/handler@0.1.0#solve")
    && var w := WiringOf(m, solve, heapBase);
       CalleesTyped(m, w) && WellFormed(AddGlue(m, w, cap, maxOut))
  }

  lemma EncodesIff(m: Module)
    ensures EncodeError(m).None? <==>
      && (forall t :: t in m.types ==> RefType !in t.params && RefType !in t.results)
      && (forall mem :: mem in m.mems ==> !mem.memory64)
      && (forall g :: g in m.globals ==> !BadGlobal(g))
      && (forall e :: e in m.exports ==>
            e.name != "cabi_realloc" && e.name != "cabi_post_x07:solve/handler@0.1.0#solve"
            && e.name != "x07:solve/handler@0.1.0#solve")
  {
    hide GlobalError, BadGlobal;
    GlobalErrorIff(m.globals);
    assert forall i :: 0 <= i < |m.types| ==> m.types[i] in m.types;
    assert forall i :: 0 <= i < |m.mems| ==> m.mems[i] in m.mems;
    assert forall i :: 0 <= i < |m.globals| ==> m.globals[i] in m.globals;
    assert forall i :: 0 <= i < |m.exports| ==> m.exports[i] in m.exports;
  }

  /** A collected module is rewritten exactly when it meets all of these. */
  lemma RewriteIff(m: Module, cap: u32, maxOut: u32)
    ensures Rewrite(m, cap, maxOut).Ok? <==> exists solve, heapBase :: Injectable(m, solve, heapBase, cap, maxOut)
  {
    hide EncodeError, LastExport, HasExport, WellFormed, CalleesTyped, AddGlue, BadGlobal;
    EncodesIff(m);
    var s, h := LastExport(m.exports, SOLVE_V2, FuncExport), LastExport(m.exports, HEAP_BASE, GlobalExport);
    forall i: nat ensures s == Some(i) <==> HasExport(m.exports, SOLVE_V2, FuncExport, i) {
      LastExportIff(m.exports, SOLVE_V2, FuncExport, i);
    }
    forall i: nat ensures h == Some(i) <==> HasExport(m.exports, HEAP_BASE, GlobalExport, i) {
      LastExportIff(m.exports, HEAP_BASE, GlobalExport, i);
    }
    if Rewrite(m, cap, maxOut).Ok? { assert Injectable(m, s.value, h.value, cap, maxOut); }
  }

  /** `part` is what the payloads carry of one kind, in order, with the glue's own behind it. */
  ghost predicate Extended<T>(whole: seq<T>, part: seq<T>, added: nat) { part <= whole && |whole| == |part| + added }

  /** out holds what the payloads carry, kind by kind, with three types, functions, globals, exports and bodies added. */
  ghost predicate CarriedOver(ps: seq<Payload>, out: Module) {
    && Extended(out.types, Carried(ps, TypesIn), 3) && Extended(out.funcs, Carried(ps, FuncsIn), 3)
    && Extended(out.globals, Carried(ps, GlobalsIn), 3) && Extended(out.exports, Carried(ps, ExportsIn), 3)
    && Extended(out.code, Carried(ps, CodeIn), 3)
    && out.mems == Carried(ps, MemsIn) && out.data == Carried(ps, DataIn) && out.customs == Carried(ps, CustomsIn)
    && out.dataCount == LastOf(Carried(ps, CountsIn), None)
  }

  /** From payloads to module: the first unsupported payload is refused; an accepted module loses nothing it carried. */
  lemma InjectionOfPayloads(ps: seq<Payload>, cap: u32, maxOut: u32)
    ensures
      var r := Inject(ps, cap, maxOut);
      && (!AllSupported(ps) ==> exists i: nat :: RefusedFirst(ps, i) && r == Err(Refusal(ps[i]).value))
      && (r.Ok? ==> AllSupported(ps) && CarriedOver(ps, r.value))
      && (AllSupported(ps) ==> exists m :: Holds(m, ps) && (r.Ok? <==> exists s, h :: Injectable(m, s, h, cap, maxOut)))
  {
    hide Refusal, Collect, EncodeError, LastExport, Injectable, EmitCabiRealloc, EmitSolveWrapper, WellFormed;
    CollectGathers(ps);
    var c := Collect(EMPTY_MODULE, ps);
    if c.Ok? { RewriteIff(c.value, cap, maxOut); }
  }

  // ---------- what the rewriting guarantees ----------

  ghost predicate Injected(m: Module, cap: u32, maxOut: u32, out: Module) { Rewrite(m, cap, maxOut) == Ok(out) }

  /** The wiring used for an accepted module. */
  function WiringIn(m: Module): Wiring
    requires LastExport(m.exports, SOLVE_V2, FuncExport).Some? && LastExport(m.exports, HEAP_BASE, GlobalExport).Some?
  {
    WiringOf(m, LastExport(m.exports, SOLVE_V2, FuncExport).value, LastExport(m.exports, HEAP_BASE, GlobalExport).value)
  }

  /** An original function, started from any memory and globals, behaves in the output as in the input,
      and the three added globals keep whatever values they had. */
  lemma InjectionPreservesMeaning(m: Module, cap: u32, maxOut: u32, out: Module, f: nat, args: seq<Val>,
                                  globals: seq<Val>, mem: Memory, added: seq<Val>, fuel: nat)
    requires WellFormed(m) && Injected(m, cap, maxOut, out)
    requires f < |m.funcs| && |globals| == |m.globals| && |added| == 3
    ensures Invoke(ProgramOf(out), f, args, globals + added, mem, fuel)
         == LiftResult(Invoke(ProgramOf(m), f, args, globals, mem, fuel), added)
  {
    var p, q := ProgramOf(m), ProgramOf(out);
    assert Extends(q, p);
    ExtendedInvoke(p, q, |m.globals|, f, args, globals, mem, added, fuel);
  }

  /** The rest of the module is carried over, and the added globals start at zero. */
  lemma InjectionKeepsModule(m: Module, cap: u32, maxOut: u32, out: Module)
    requires Injected(m, cap, maxOut, out)
    ensures out.mems == m.mems && out.data == m.data && out.dataCount == m.dataCount && out.customs == m.customs
    ensures m.exports <= out.exports && m.globals <= out.globals
    ensures |out.globals| == |m.globals| + 3
    ensures forall k :: |m.globals| <= k < |out.globals| ==>
      var g := out.globals[k]; g.ty == I32 && g.mutable && !g.shared && g.init == [0x41, 0x00, 0x0b]
  {
  }

  /** The three new exports are the functions of the intended types, and all export names are distinct. */
  lemma InjectionExports(m: Module, cap: u32, maxOut: u32, out: Module)
    requires Injected(m, cap, maxOut, out)
    ensures ExportsOk(out)
    ensures
      var p, n := ProgramOf(out), |m.funcs|;
      && ValidFunc(p, n) && FuncTypeOf(p, n) == FuncType([I32, I32, I32, I32], [I32])
      && ValidFunc(p, n + 1) && FuncTypeOf(p, n + 1) == FuncType([I32], [])
      && ValidFunc(p, n + 2) && FuncTypeOf(p, n + 2) == FuncType([I32, I32], [I32])
      && LastExport(out.exports, "cabi_realloc", FuncExport) == Some(n)
      && LastExport(out.exports, "cabi_post_x07:solve/handler@0.1.0#solve", FuncExport) == Some(n + 1)
      && LastExport(out.exports, "x07:solve/handler@0.1.0#solve", FuncExport) == Some(n + 2)
  {
    hide EmitCabiRealloc, EmitSolveWrapper, EncodeError, ScopedProgram, CalleesTyped, LastExport;
    var e1 := Export(CABI_REALLOC, FuncExport, |m.funcs|);
    var e2 := Export(CABI_POST, FuncExport, |m.funcs| + 1);
    var e3 := Export(SOLVE, FuncExport, |m.funcs| + 2);
    assert CABI_POST[0] != SOLVE[0] && CABI_REALLOC[0] != SOLVE[0] && CABI_REALLOC[5] != CABI_POST[5];
    assert out.exports == m.exports + [e1] + [e2] + [e3];
    forall name | name in [CABI_REALLOC, CABI_POST, SOLVE]
      ensures LastExport(out.exports, name, FuncExport)
           == Some(|m.funcs| + if name == CABI_REALLOC then 0 else if name == CABI_POST then 1 else 2)
    {
      LastExportSnoc(m.exports, e1, name, FuncExport);
      LastExportSnoc(m.exports + [e1], e2, name, FuncExport);
      LastExportSnoc(m.exports + [e1] + [e2], e3, name, FuncExport);
    }
  }

  lemma LastExportSnoc(es: seq<Export>, e: Export, name: string, kind: ExternKind)
    ensures LastExport(es + [e], name, kind)
         == if e.name == name && e.kind == kind then Some(e.index) else LastExport(es, name, kind)
  {
    assert (es + [e])[..|es|] == es;
  }

  /** The injected functions are the emitted wrapper and allocator, wired to the right callee and globals. */
  lemma InjectionWires(m: Module, cap: u32, maxOut: u32, out: Module)
    requires Injected(m, cap, maxOut, out)
    ensures IsWrapper(ProgramOf(out), |m.funcs| + 2, WiringIn(m), cap, maxOut)
    ensures WiringIn(m).heapBase < |m.globals| && WiringIn(m).solve < |m.funcs|
  {
  }
}
