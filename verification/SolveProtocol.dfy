/**
 The injected module as a host drives it: any interleaving of `cabi_realloc`,
 solve and post-return calls, run on the machine.
 */
module SolveProtocol {
  import opened Words
  import opened Allocator
  import opened WasmMachine
  import opened EmittedRealloc
  import opened EmittedSolve
  import opened WasmInject

  datatype HostCall = ReallocCall(q: Request) | SolveCall(inPtr: u32, inLen: u32) | PostCall(ptr: u32)

  /** A running instance: the module's own globals, the three injected ones, and memory. */
  datatype Inst = Inst(own: seq<Val>, glue: Glue, mem: Memory)

  function GlueVals(g: Glue): seq<Val> { [I32Val(g.heap), I32Val(g.arena), I32Val(g.retArea)] }

  function GlobalsOf(s: Inst): seq<Val> { s.own + GlueVals(s.glue) }

  /** The setting: an injected module, the input it came from, and its parameters. */
  datatype Setup = Setup(m: Module, out: Module, cap: u32, maxOut: u32, heapBase: u32)

  ghost predicate SetupOk(u: Setup) {
    WellFormed(u.m) && Injected(u.m, u.cap, u.maxOut, u.out) && u.cap > 0 && u.heapBase > 0
  }

  ghost predicate InstOk(u: Setup, s: Inst)
    requires SetupOk(u)
  {
    |s.own| == |u.m.globals| && s.own[WiringIn(u.m).heapBase] == I32Val(u.heapBase)
  }

  /** Calling an export of the injected module. */
  function Call(u: Setup, s: Inst, c: HostCall, fuel: nat): CallResult {
    var n := |u.m.funcs|;
    var (f, args) :=
      match c
      case ReallocCall(q) => (n, Args(q))
      case PostCall(ptr) => (n + 1, [I32Val(ptr)])
      case SolveCall(inPtr, inLen) => (n + 2, [I32Val(inPtr), I32Val(inLen)]);
    Invoke(ProgramOf(u.out), f, args, GlobalsOf(s), s.mem, fuel)
  }

  // ---------- each export on an instance ----------

  lemma GlueInPlace(u: Setup, s: Inst)
    requires SetupOk(u) && InstOk(u, s)
    ensures HoldsGlue(GlobalsOf(s), WiringIn(u.m), u.heapBase, s.glue)
    ensures forall g: Glue :: SetGlue(GlobalsOf(s), WiringIn(u.m), g) == GlobalsOf(s.(glue := g))
  {
    InjectionWires(u.m, u.cap, u.maxOut, u.out);
  }

  lemma ReallocOnInstance(u: Setup, s: Inst, q: Request, fuel: nat)
    requires SetupOk(u) && InstOk(u, s)
    ensures
      var r := Realloc(u.heapBase, s.glue.heap, s.mem, q);
      Call(u, s, ReallocCall(q), fuel) == CallOutOfFuel
      || Call(u, s, ReallocCall(q), fuel)
         == match r
            case Trapped => CallTrap
            case Allocated(a, h, m) => Done([I32Val(a)], GlobalsOf(s.(glue := s.glue.(heap := h))), m)
  {
    var w := WiringIn(u.m);
    InjectionWires(u.m, u.cap, u.maxOut, u.out);
    GlueInPlace(u, s);
    EmittedReallocAnyFuel(ProgramOf(u.out), |u.m.funcs|, w.heapBase, w.heapPtr, q, GlobalsOf(s), s.mem,
                          u.heapBase, s.glue.heap, fuel);
    var r := Realloc(u.heapBase, s.glue.heap, s.mem, q);
    if r.Allocated? {
      assert GlobalsOf(s)[w.heapPtr := I32Val(r.heap)] == GlobalsOf(s.(glue := s.glue.(heap := r.heap)));
    }
  }

  lemma PostOnInstance(u: Setup, s: Inst, ptr: u32, fuel: nat)
    requires SetupOk(u)
    ensures Call(u, s, PostCall(ptr), fuel) == Done([], GlobalsOf(s), s.mem)
  {
    InjectionExports(u.m, u.cap, u.maxOut, u.out);
    var p, f := ProgramOf(u.out), |u.m.funcs| + 1;
    var s0 := State(Bottom, [I32Val(ptr)] + ZeroLocals([]), GlobalsOf(s), s.mem);
    assert p.code[f] == EmitCabiPost();
    assert Exec(p, End, s0, fuel) == Normal(s0);
    assert Invoke(p, f, [I32Val(ptr)], GlobalsOf(s), s.mem, fuel) == Finish(s0, 0);
  }

  /** What `x07_solve_v2` does in the input module when the wrapper calls it with glue g. */
  function SolverRun(u: Setup, s: Inst, g: Glue, c: HostCall, fuel: nat): CallResult
    requires c.SolveCall? && LastExport(u.m.exports, SOLVE_V2, FuncExport).Some?
  {
    Invoke(ProgramOf(u.m), LastExport(u.m.exports, SOLVE_V2, FuncExport).value,
           SolveArgs(g, u.cap, c.inPtr, c.inLen), s.own, s.mem, fuel)
  }

  /** The wrapper calls the input module's own solver, whose run cannot touch the injected globals. */
  lemma SolveOnInstance(u: Setup, s: Inst, c: HostCall, fuel: nat)
    requires SetupOk(u) && InstOk(u, s) && c.SolveCall? && fuel > 0
    ensures
      var g := Prepare(u.heapBase, u.cap, s.glue);
      Call(u, s, c, fuel)
      == if IsNegative(c.inLen) then CallTrap
         else CheckReported(g.retArea, g.arena, u.cap, u.maxOut, LiftedRun(u, s, g, c, fuel - 1))
  {
    hide WithArena, WithRetArea, Prepare, Fresh, AlignUp, WellFormed, CheckReported, SolveArgs;
    hide Invoke, ProgramOf, IsWrapper, HoldsGlue, SetGlue;
    var w := WiringIn(u.m);
    var g := Prepare(u.heapBase, u.cap, s.glue);
    InjectionWires(u.m, u.cap, u.maxOut, u.out);
    GlueInPlace(u, s);
    EmittedSolveRefines(ProgramOf(u.out), |u.m.funcs| + 2, w, u.cap, u.maxOut, c.inPtr, c.inLen, u.heapBase,
                        s.glue, GlobalsOf(s), s.mem, fuel);
    InjectionPreservesMeaning(u.m, u.cap, u.maxOut, u.out, w.solve, SolveArgs(g, u.cap, c.inPtr, c.inLen),
                              s.own, s.mem, GlueVals(g), fuel - 1);
  }

  function LiftedRun(u: Setup, s: Inst, g: Glue, c: HostCall, fuel: nat): CallResult
    requires c.SolveCall? && LastExport(u.m.exports, SOLVE_V2, FuncExport).Some?
  {
    var r := SolverRun(u, s, g, c, fuel);
    if r.Done? then r.(globals := r.globals + GlueVals(g)) else r
  }

  // ---------- bookkeeping of blocks ----------

  /** An instance with every block handed out so far; the two areas know their place in the list. */
  datatype Tracked = Tracked(inst: Inst, blocks: seq<Region>, retAt: Option<nat>, arenaAt: Option<nat>)

  ghost predicate Inv(u: Setup, t: Tracked)
    requires SetupOk(u)
  {
    var g := t.inst.glue;
    && InstOk(u, t.inst)
    && BlocksOk(u.heapBase, g.heap, t.blocks)
    && (g.retArea != 0 <==> t.retAt.Some?) && (g.arena != 0 <==> t.arenaAt.Some?)
    && (t.retAt.Some? ==> t.retAt.value < |t.blocks| && t.blocks[t.retAt.value] == Region(g.retArea, 8))
    && (t.arenaAt.Some? ==> t.arenaAt.value < |t.blocks| && t.blocks[t.arenaAt.value] == Region(g.arena, u.cap))
    && (t.retAt.Some? && t.arenaAt.Some? ==> t.retAt != t.arenaAt)
  }

  /** The tracked state once the wrapper has prepared its areas. */
  function Prepared(u: Setup, t: Tracked): Tracked {
    var g := t.inst.glue;
    var gA := WithRetArea(u.heapBase, g);
    var tA := if g.retArea != 0 then t
              else Tracked(t.inst.(glue := gA), t.blocks + [Region(gA.retArea, 8)], Some(|t.blocks|), t.arenaAt);
    var gB := WithArena(u.heapBase, u.cap, gA);
    if gA.arena != 0 then tA
    else Tracked(tA.inst.(glue := gB), tA.blocks + [Region(gB.arena, u.cap)], tA.retAt, Some(|tA.blocks|))
  }

  /** The tracked state after a call that returned r. */
  function After(u: Setup, t: Tracked, c: HostCall, r: CallResult): Tracked
    requires r.Done? && |t.inst.own| <= |r.globals|
  {
    var own := r.globals[..|t.inst.own|];
    match c
    case PostCall(_) => t
    case SolveCall(_, _) =>
      var t1 := Prepared(u, t);
      t1.(inst := Inst(own, t1.inst.glue, r.mem))
    case ReallocCall(q) =>
      if q.newSize == 0 || r.results == [] || !r.results[0].I32Val? then t
      else
        var a := r.results[0].n;
        t.(inst := Inst(own, t.inst.glue.(heap := Add32(a, q.newSize)), r.mem), blocks := t.blocks + [Region(a, q.newSize)])
  }

  /** The glue part of the resulting globals agrees with the tracked state. */
  ghost predicate GlueAgrees(t': Tracked, r: CallResult) {
    r.Done? && r.globals == GlobalsOf(t'.inst)
  }

  const RET_REQUEST := Request(0, 0, 4, 8)

  /** The sums formed while preparing the areas stay below 2^32. */
  ghost predicate RoomToPrepare(u: Setup, g: Glue) {
    var gA := WithRetArea(u.heapBase, g);
    && (g.retArea == 0 ==> NoWrap(u.heapBase, g.heap, RET_REQUEST))
    && (gA.arena == 0 ==> NoWrap(u.heapBase, gA.heap, Request(0, 0, 8, u.cap)))
  }

  predicate InAreas(g: Glue, cap: u32, a: int) {
    g.retArea <= a < g.retArea + 8 || g.arena <= a < g.arena + cap
  }

  ghost predicate OnlyAreasWritten(g: Glue, cap: u32, mem: Memory, m: Memory) {
    |mem| <= |m| && forall a :: 0 <= a < |mem| && !InAreas(g, cap, a) ==> m[a] == mem[a]
  }

  /** The solver writes memory only inside the return area and the arena, and keeps `__heap_base`. */
  ghost predicate Contained(u: Setup, s: Inst, g: Glue, r: CallResult)
    requires SetupOk(u) && InstOk(u, s)
  {
    r.Done? ==>
      && OnlyAreasWritten(g, u.cap, s.mem, r.mem)
      && |r.globals| == |s.own| && r.globals[WiringIn(u.m).heapBase] == I32Val(u.heapBase)
  }

  /** What the host and the solver are asked to respect in one call. */
  ghost predicate GoodCall(u: Setup, t: Tracked, c: HostCall)
    requires SetupOk(u) && InstOk(u, t.inst)
  {
    match c
    case PostCall(_) => true
    case ReallocCall(q) => q.newSize == 0 || GoodRequest(u.heapBase, t.inst.glue.heap, t.blocks, q)
    case SolveCall(_, _) =>
      && RoomToPrepare(u, t.inst.glue)
      && var g := Prepare(u.heapBase, u.cap, t.inst.glue);
         forall k: nat :: Contained(u, t.inst, g, SolverRun(u, t.inst, g, c, k))
  }

  // ---------- one call ----------

  /** What every returning call guarantees. */
  ghost predicate StepKeeps(u: Setup, t: Tracked, t': Tracked) {
    && t.blocks <= t'.blocks
    && (t.retAt.Some? ==> t'.retAt == t.retAt && t'.inst.glue.retArea == t.inst.glue.retArea)
    && (t.arenaAt.Some? ==> t'.arenaAt == t.arenaAt && t'.inst.glue.arena == t.inst.glue.arena)
    && (forall i :: 0 <= i < |t.blocks| && Some(i) != t.retAt && Some(i) != t.arenaAt ==>
         SameBytes(t.blocks[i], t.inst.mem, t'.inst.mem))
  }

  /** A solve that returns hands back the return area, reporting bytes inside the arena. */
  ghost predicate ReportsInArena(u: Setup, t': Tracked, r: CallResult)
    requires r.Done?
  {
    var g := t'.inst.glue;
    && r.results == [I32Val(g.retArea)]
    && g.retArea + 8 <= |r.mem|
    && var outPtr, outLen := WordAt(r.mem, g.retArea), WordAt(r.mem, g.retArea + 4);
       && outLen <= u.maxOut
       && (outPtr + outLen < TWO32 ==> g.arena <= outPtr && outPtr + outLen <= g.arena + u.cap)
  }

  lemma FreshStep(u: Setup, t: Tracked, align: u32, size: u32)
    requires SetupOk(u) && Inv(u, t) && size > 0 && (align == 4 || align == 8)
    requires NoWrap(u.heapBase, t.inst.glue.heap, Request(0, 0, align, size))
    ensures
      var (a, h) := Fresh(u.heapBase, t.inst.glue.heap, align, size);
      a != 0 && a + size == h && BlocksOk(u.heapBase, h, t.blocks + [Region(a, size)])
  {
    var q := Request(0, 0, align, size);
    assert IsPow2(align) by { assert Pow2(2) == 4 && Pow2(3) == 8; }
    FreshIsRealloc(u.heapBase, t.inst.glue.heap, align, size, t.inst.mem);
    AllocStep(u.heapBase, t.inst.glue.heap, t.inst.mem, t.blocks, q);
    BlockAdded(u.heapBase, t.inst.glue.heap, t.inst.mem, t.blocks, q,
               Realloc(u.heapBase, t.inst.glue.heap, t.inst.mem, q));
  }

  lemma PreparedOk(u: Setup, t: Tracked)
    requires SetupOk(u) && Inv(u, t) && RoomToPrepare(u, t.inst.glue)
    ensures
      var t1 := Prepared(u, t);
      && Inv(u, t1) && StepKeeps(u, t, t1) && t1.retAt.Some? && t1.arenaAt.Some?
      && t1.inst == t.inst.(glue := Prepare(u.heapBase, u.cap, t.inst.glue))
  {
    var g := t.inst.glue;
    var gA := WithRetArea(u.heapBase, g);
    if g.retArea == 0 { FreshStep(u, t, 4, 8); }
    var tA := if g.retArea != 0 then t
              else Tracked(t.inst.(glue := gA), t.blocks + [Region(gA.retArea, 8)], Some(|t.blocks|), t.arenaAt);
    assert Inv(u, tA);
    if gA.arena == 0 { FreshStep(u, tA, 8, u.cap); }
  }

  /** The areas the wrapper allocates are aligned for what it keeps in them. */
  lemma AreasAligned(u: Setup, t: Tracked)
    requires SetupOk(u) && Inv(u, t) && RoomToPrepare(u, t.inst.glue)
    ensures
      var g := t.inst.glue;
      var g1 := Prepare(u.heapBase, u.cap, g);
      && (g.retArea == 0 ==> g1.retArea % 4 == 0) && (g.retArea != 0 ==> g1.retArea == g.retArea)
      && (g.arena == 0 ==> g1.arena % 8 == 0) && (g.arena != 0 ==> g1.arena == g.arena)
  {
    assert IsPow2(4) && IsPow2(8) by { assert Pow2(2) == 4 && Pow2(3) == 8; }
    var g := t.inst.glue;
    var gA := WithRetArea(u.heapBase, g);
    if g.retArea == 0 { AlignUpMeaning(HeapStart(u.heapBase, g.heap), 4); }
    if gA.arena == 0 { AlignUpMeaning(HeapStart(u.heapBase, gA.heap), 8); }
  }

  lemma SolveReturned(u: Setup, s: Inst, c: HostCall, fuel: nat)
    requires SetupOk(u) && InstOk(u, s) && c.SolveCall? && Call(u, s, c, fuel).Done?
    ensures
      var g := Prepare(u.heapBase, u.cap, s.glue);
      Call(u, s, c, fuel) == CheckReported(g.retArea, g.arena, u.cap, u.maxOut, LiftedRun(u, s, g, c, fuel))
  {
    hide WithArena, WithRetArea, Prepare, WellFormed, CheckReported, Injected;
    InvokeMoreFuel(ProgramOf(u.out), |u.m.funcs| + 2, [I32Val(c.inPtr), I32Val(c.inLen)], GlobalsOf(s), s.mem,
                   fuel, fuel + 1);
    SolveOnInstance(u, s, c, fuel + 1);
  }

  /** The resulting globals and memory of a solve that returned are its solver's. */
  lemma SolveResult(u: Setup, t: Tracked, c: HostCall, fuel: nat)
    requires SetupOk(u) && Inv(u, t) && GoodCall(u, t, c) && c.SolveCall?
    requires Call(u, t.inst, c, fuel).Done?
    ensures
      var g := Prepare(u.heapBase, u.cap, t.inst.glue);
      var r := Call(u, t.inst, c, fuel);
      && OnlyAreasWritten(g, u.cap, t.inst.mem, r.mem)
      && |t.inst.own| <= |r.globals| && r.globals == GlobalsOf(Inst(r.globals[..|t.inst.own|], g, r.mem))
      && InstOk(u, Inst(r.globals[..|t.inst.own|], g, r.mem))
      && r.results == [I32Val(g.retArea)] && g.retArea + 8 <= |r.mem|
      && Accepts(g.arena, u.cap, u.maxOut, WordAt(r.mem, g.retArea), WordAt(r.mem, g.retArea + 4))
  {
    hide Invoke, AlignUp, Fresh, WordAt, WithArena, WithRetArea, Prepare, SolveArgs, Accepts, OnlyAreasWritten, RoomToPrepare;
    SolveReturned(u, t.inst, c, fuel);
    var g := Prepare(u.heapBase, u.cap, t.inst.glue);
    var run := SolverRun(u, t.inst, g, c, fuel);
    assert Contained(u, t.inst, g, run);
    var r := Call(u, t.inst, c, fuel);
    assert r.globals[..|t.inst.own|] == run.globals;
  }

  lemma SolveStep(u: Setup, t: Tracked, c: HostCall, fuel: nat)
    requires SetupOk(u) && Inv(u, t) && GoodCall(u, t, c) && c.SolveCall?
    requires Call(u, t.inst, c, fuel).Done?
    ensures |t.inst.own| <= |Call(u, t.inst, c, fuel).globals|
    ensures
      var r := Call(u, t.inst, c, fuel);
      var t' := After(u, t, c, r);
      Inv(u, t') && GlueAgrees(t', r) && StepKeeps(u, t, t') && ReportsInArena(u, t', r)
  {
    hide Call, AlignUp, Fresh, WordAt, WithArena, WithRetArea, Prepare, SetupOk, GlobalsOf, Accepts;
    SolveResult(u, t, c, fuel);
    PreparedOk(u, t);
    var t1 := Prepared(u, t);
    var r := Call(u, t.inst, c, fuel);
    OthersKept(u, t1, t.inst.mem, r.mem);
    ReportMeaning(t1.inst.glue.arena, u.cap, u.maxOut, WordAt(r.mem, t1.inst.glue.retArea),
                  WordAt(r.mem, t1.inst.glue.retArea + 4), t1.inst.glue.heap);
  }

  lemma ReportMeaning(arena: u32, cap: u32, maxOut: u32, outPtr: u32, outLen: u32, heap: u32)
    requires Accepts(arena, cap, maxOut, outPtr, outLen) && arena + cap <= heap
    ensures outLen <= maxOut && (outPtr + outLen < TWO32 ==> arena <= outPtr && outPtr + outLen <= arena + cap)
  {
  }

  /** Blocks other than the two areas keep their bytes when only the areas are written. */
  lemma OthersKept(u: Setup, t: Tracked, mem: Memory, m: Memory)
    requires SetupOk(u) && Inv(u, t) && t.retAt.Some? && t.arenaAt.Some?
    requires OnlyAreasWritten(t.inst.glue, u.cap, mem, m)
    ensures forall i :: 0 <= i < |t.blocks| && Some(i) != t.retAt && Some(i) != t.arenaAt ==>
              SameBytes(t.blocks[i], mem, m)
  {
    hide InstOk, SetupOk;
    forall i | 0 <= i < |t.blocks| && Some(i) != t.retAt && Some(i) != t.arenaAt
      ensures SameBytes(t.blocks[i], mem, m)
    {
      OtherBlockApart(t.blocks, i, t.retAt.value);
      OtherBlockApart(t.blocks, i, t.arenaAt.value);
    }
  }

  lemma OtherBlockApart(blocks: seq<Region>, i: nat, j: nat)
    requires forall i, j :: 0 <= i < j < |blocks| ==> Disjoint(blocks[i], blocks[j])
    requires i < |blocks| && j < |blocks| && i != j
    ensures Disjoint(blocks[i], blocks[j])
  {
    if j < i { assert Disjoint(blocks[j], blocks[i]); }
  }

  lemma ReallocStep(u: Setup, t: Tracked, c: HostCall, fuel: nat)
    requires SetupOk(u) && Inv(u, t) && GoodCall(u, t, c) && c.ReallocCall?
    requires Call(u, t.inst, c, fuel).Done?
    ensures |t.inst.own| <= |Call(u, t.inst, c, fuel).globals|
    ensures
      var r := Call(u, t.inst, c, fuel);
      var t' := After(u, t, c, r);
      Inv(u, t') && GlueAgrees(t', r) && StepKeeps(u, t, t')
  {
    var q := c.q;
    var heap := t.inst.glue.heap;
    ReallocOnInstance(u, t.inst, q, fuel);
    if q.newSize > 0 {
      AllocStep(u.heapBase, heap, t.inst.mem, t.blocks, q);
      BlockAdded(u.heapBase, heap, t.inst.mem, t.blocks, q, Realloc(u.heapBase, heap, t.inst.mem, q));
    }
  }

  /** Every returning call keeps the invariant, the areas in place and the host's blocks unchanged. */
  lemma ProtocolStep(u: Setup, t: Tracked, c: HostCall, fuel: nat)
    requires SetupOk(u) && Inv(u, t) && GoodCall(u, t, c)
    requires Call(u, t.inst, c, fuel).Done?
    ensures |t.inst.own| <= |Call(u, t.inst, c, fuel).globals|
    ensures
      var r := Call(u, t.inst, c, fuel);
      var t' := After(u, t, c, r);
      Inv(u, t') && GlueAgrees(t', r) && StepKeeps(u, t, t') && (c.SolveCall? ==> ReportsInArena(u, t', r))
  {
    match c
    case PostCall(ptr) => PostOnInstance(u, t.inst, ptr, fuel);
    case SolveCall(_, _) => SolveStep(u, t, c, fuel);
    case ReallocCall(_) => ReallocStep(u, t, c, fuel);
  }

  // ---------- every sequence of calls ----------

  /** Run the calls in order; None once a call does not return. */
  function RunCalls(u: Setup, t: Tracked, cs: seq<HostCall>, fuel: nat): Option<Tracked>
    decreases |cs|
  {
    if cs == [] then Some(t)
    else
      var r := Call(u, t.inst, cs[0], fuel);
      if !r.Done? || |r.globals| < |t.inst.own| then None else RunCalls(u, After(u, t, cs[0], r), cs[1..], fuel)
  }

  ghost predicate GoodCalls(u: Setup, t: Tracked, cs: seq<HostCall>, fuel: nat)
    requires SetupOk(u)
    decreases |cs|
  {
    cs != [] ==>
      && (InstOk(u, t.inst) ==> GoodCall(u, t, cs[0]))
      && var r := Call(u, t.inst, cs[0], fuel);
         r.Done? && |t.inst.own| <= |r.globals| ==> GoodCalls(u, After(u, t, cs[0], r), cs[1..], fuel)
  }

  /** In every state of the run the invariant holds, and every call that returned kept what it must. */
  ghost predicate KeptAlong(u: Setup, t: Tracked, cs: seq<HostCall>, fuel: nat)
    requires SetupOk(u)
    decreases |cs|
  {
    && Inv(u, t)
    && (cs != [] ==>
          var r := Call(u, t.inst, cs[0], fuel);
          r.Done? ==>
            && |t.inst.own| <= |r.globals|
            && var t' := After(u, t, cs[0], r);
               && GlueAgrees(t', r) && StepKeeps(u, t, t') && (cs[0].SolveCall? ==> ReportsInArena(u, t', r))
               && KeptAlong(u, t', cs[1..], fuel))
  }

  /**
   Over any interleaving of calls, from any state with the invariant: it holds in every state of the
   run, the areas are allocated at most once and never move, and every solve reports from the arena.
   */
  lemma {:induction false} ProtocolRuns(u: Setup, t: Tracked, cs: seq<HostCall>, fuel: nat)
    requires SetupOk(u) && Inv(u, t) && GoodCalls(u, t, cs, fuel)
    ensures KeptAlong(u, t, cs, fuel)
    ensures RunCalls(u, t, cs, fuel).Some? ==>
      Inv(u, RunCalls(u, t, cs, fuel).value) && AreasStay(t, RunCalls(u, t, cs, fuel).value)
    decreases |cs|
  {
    hide Call, After, SetupOk, GoodCall, ReportsInArena, GlueAgrees;
    if cs != [] {
      var r := Call(u, t.inst, cs[0], fuel);
      if r.Done? {
        ProtocolStep(u, t, cs[0], fuel);
        ProtocolRuns(u, After(u, t, cs[0], r), cs[1..], fuel);
      }
    }
  }

  ghost predicate AreasStay(t: Tracked, t': Tracked) {
    && t.blocks <= t'.blocks
    && (t.retAt.Some? ==> t'.retAt == t.retAt && t'.inst.glue.retArea == t.inst.glue.retArea)
    && (t.arenaAt.Some? ==> t'.arenaAt == t.arenaAt && t'.inst.glue.arena == t.inst.glue.arena)
  }

  /** A fresh instance satisfies the invariant. */
  lemma FreshInstance(u: Setup, own: seq<Val>, mem: Memory)
    requires SetupOk(u) && InstOk(u, Inst(own, Glue(0, 0, 0), mem))
    ensures Inv(u, Tracked(Inst(own, Glue(0, 0, 0), mem), [], None, None))
  {
  }

  /** In a reachable state the two areas are apart from each other and from every block given to the host. */
  lemma AreasApart(u: Setup, t: Tracked, i: nat)
    requires SetupOk(u) && Inv(u, t) && t.retAt.Some? && t.arenaAt.Some? && i < |t.blocks|
    ensures Disjoint(Region(t.inst.glue.retArea, 8), Region(t.inst.glue.arena, u.cap))
    ensures Some(i) != t.retAt && Some(i) != t.arenaAt ==>
      Disjoint(t.blocks[i], Region(t.inst.glue.retArea, 8)) && Disjoint(t.blocks[i], Region(t.inst.glue.arena, u.cap))
  {
    OtherBlockApart(t.blocks, t.retAt.value, t.arenaAt.value);
    if Some(i) != t.retAt && Some(i) != t.arenaAt {
      OtherBlockApart(t.blocks, i, t.retAt.value);
      OtherBlockApart(t.blocks, i, t.arenaAt.value);
    }
  }

  /** The bound on the reported sum is needed for every arena and every non-zero limit: a report that wraps is accepted. */
  lemma WrappedReportAccepted(arena: u32, cap: u32, maxOut: u32)
    requires arena > 0 && arena + cap < TWO32 && maxOut > 0
    ensures Accepts(arena, cap, maxOut, TWO32 - 1, 1) && TWO32 - 1 + 1 > arena + cap
  {
  }

  /** The wrapper of any injected module hands back a report that leaves the arena exactly when its sum wraps into range. */
  lemma EscapingReports(u: Setup, s: Inst, c: HostCall, fuel: nat)
    requires SetupOk(u) && InstOk(u, s) && c.SolveCall? && !IsNegative(c.inLen) && fuel > 0
    requires
      var g := Prepare(u.heapBase, u.cap, s.glue);
      var run := SolverRun(u, s, g, c, fuel - 1);
      run.Done? && g.arena + u.cap < TWO32 && g.retArea + 8 <= |run.mem|
    ensures
      var g := Prepare(u.heapBase, u.cap, s.glue);
      var run := SolverRun(u, s, g, c, fuel - 1);
      var outPtr, outLen := WordAt(run.mem, g.retArea), WordAt(run.mem, g.retArea + 4);
      var inside := g.arena <= outPtr && outPtr + outLen <= g.arena + u.cap;
      Call(u, s, c, fuel).Done? && !inside <==>
        && outLen <= u.maxOut && g.arena <= outPtr
        && outPtr + outLen >= TWO32 && outPtr + outLen - TWO32 <= g.arena + u.cap
  {
    hide WithArena, WithRetArea, Prepare, Fresh, AlignUp, WellFormed, SolveArgs, WordAt, Invoke;
    SolveOnInstance(u, s, c, fuel);
  }

  /** The 32-bit test is exactly containment when the sums do not wrap. */
  lemma AcceptsIsContainment(arena: u32, cap: u32, maxOut: u32, outPtr: u32, outLen: u32)
    requires arena + cap < TWO32 && outPtr + outLen < TWO32
    ensures Accepts(arena, cap, maxOut, outPtr, outLen)
        <==> outLen <= maxOut && arena <= outPtr && outPtr + outLen <= arena + cap
  {
  }
}
