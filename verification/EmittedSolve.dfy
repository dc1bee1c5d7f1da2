/**
 The emitted solve wrapper: it allocates the return area and the arena on first
 use, calls `x07_solve_v2` and checks the output it reports.
 */
module EmittedSolve {
  import opened Words
  import opened Allocator
  import opened WasmMachine
  import opened EmittedRealloc

  // Locals: two parameters, then six i32 temporaries.
  const INPUT_PTR := 0
  const INPUT_LEN := 1
  const RET_AREA := 2
  const ARENA := 3
  const OUT_PTR := 4
  const OUT_LEN := 5
  const OUT_END := 6
  const ARENA_END := 7

  datatype Wiring = Wiring(solve: nat, realloc: nat, heapBase: nat, heapPtr: nat, arena: nat, retArea: nat)

  // ---------- the emitted code ----------

  function TrapIf(rest: Code): Code { IfThen(Then(Unreachable, End), rest) }

  function CheckInputLen(rest: Code): Code {
    Then(LocalGet(INPUT_LEN), Then(I32Const(0), Then(Rel(LtS), TrapIf(rest))))
  }

  function LoadOnce(g: nat, local: nat, align: u32, size: u32, realloc: nat, rest: Code): Code {
    Then(GlobalGet(g), Then(LocalSet(local), Then(LocalGet(local), Then(I32Eqz,
    IfThen(AllocOnce(g, local, align, size, realloc), rest)))))
  }

  function AllocOnce(g: nat, local: nat, align: u32, size: u32, realloc: nat): Code {
    Then(I32Const(0), Then(I32Const(0), Then(I32Const(align), Then(I32Const(size), Then(Call(realloc),
    KeepPointer(g, local))))))
  }

  function KeepPointer(g: nat, local: nat): Code {
    Then(LocalSet(local), Then(LocalGet(local), Then(GlobalSet(g), End)))
  }

  function CallSolve(cap: u32, solve: nat, rest: Code): Code {
    Then(LocalGet(RET_AREA), Then(LocalGet(ARENA), Then(I32Const(cap), Then(LocalGet(INPUT_PTR),
    Then(LocalGet(INPUT_LEN), Then(Call(solve), rest))))))
  }

  function LoadOutput(rest: Code): Code {
    Then(LocalGet(RET_AREA), Then(I32Load(0), Then(LocalSet(OUT_PTR),
    Then(LocalGet(RET_AREA), Then(I32Load(4), Then(LocalSet(OUT_LEN), rest))))))
  }

  function CheckOutLen(maxOut: u32, rest: Code): Code {
    Then(LocalGet(OUT_LEN), Then(I32Const(maxOut), Then(Rel(GtU), TrapIf(rest))))
  }

  function ComputeEnds(cap: u32, rest: Code): Code {
    Then(LocalGet(OUT_PTR), Then(LocalGet(OUT_LEN), Then(Bin(Add), Then(LocalSet(OUT_END),
    Then(LocalGet(ARENA), Then(I32Const(cap), Then(Bin(Add), Then(LocalSet(ARENA_END), rest))))))))
  }

  function CheckStart(rest: Code): Code {
    Then(LocalGet(OUT_PTR), Then(LocalGet(ARENA), Then(Rel(LtU), TrapIf(rest))))
  }

  function CheckEnd(rest: Code): Code {
    Then(LocalGet(OUT_END), Then(LocalGet(ARENA_END), Then(Rel(GtU), TrapIf(rest))))
  }

  function ReturnRetArea(): Code { Then(LocalGet(RET_AREA), End) }

  function CheckOutput(cap: u32, maxOut: u32): Code {
    CheckOutLen(maxOut, ComputeEnds(cap, CheckStart(CheckEnd(ReturnRetArea()))))
  }

  function SolveCode(w: Wiring, cap: u32, maxOut: u32): Code {
    CheckInputLen(
      LoadOnce(w.retArea, RET_AREA, 4, 8, w.realloc,
        LoadOnce(w.arena, ARENA, 8, cap, w.realloc,
          CallSolve(cap, w.solve, LoadOutput(CheckOutput(cap, maxOut))))))
  }

  function EmitSolveWrapper(w: Wiring, cap: u32, maxOut: u32): FuncBody {
    FuncBody([I32, I32, I32, I32, I32, I32], SolveCode(w, cap, maxOut))
  }

  /** The post-return function does nothing. */
  function EmitCabiPost(): FuncBody { FuncBody([], End) }

  // ---------- what it computes ----------

  /** The values of the three injected globals. */
  datatype Glue = Glue(heap: u32, arena: u32, retArea: u32)

  /** A fresh block of the given alignment and size: its pointer and the new heap pointer. */
  function Fresh(heapBase: u32, heap: u32, align: u32, size: u32): (u32, u32)
    requires align > 0
  {
    if size == 0 then (align, heap)
    else
      var p := AlignUp(HeapStart(heapBase, heap), align);
      (p, Add32(p, size))
  }

  lemma FreshIsRealloc(heapBase: u32, heap: u32, align: u32, size: u32, mem: Memory)
    requires align > 0
    ensures
      var (p, h) := Fresh(heapBase, heap, align, size);
      Realloc(heapBase, heap, mem, Request(0, 0, align, size)) == Allocated(p, h, mem)
  {
  }

  function WithRetArea(heapBase: u32, g: Glue): Glue {
    if g.retArea != 0 then g
    else
      var (p, h) := Fresh(heapBase, g.heap, 4, 8);
      g.(retArea := p, heap := h)
  }

  function WithArena(heapBase: u32, cap: u32, g: Glue): Glue {
    if g.arena != 0 then g
    else
      var (p, h) := Fresh(heapBase, g.heap, 8, cap);
      g.(arena := p, heap := h)
  }

  function Prepare(heapBase: u32, cap: u32, g: Glue): Glue {
    WithArena(heapBase, cap, WithRetArea(heapBase, g))
  }

  /** The wrapper's 32-bit test of the reported output. */
  predicate Accepts(arena: u32, cap: u32, maxOut: u32, outPtr: u32, outLen: u32) {
    outLen <= maxOut && arena <= outPtr && Add32(outPtr, outLen) <= Add32(arena, cap)
  }

  function CheckReported(retArea: u32, arena: u32, cap: u32, maxOut: u32, r: CallResult): CallResult {
    if !r.Done? then r
    else if retArea + 8 > |r.mem| then CallTrap
    else if Accepts(arena, cap, maxOut, WordAt(r.mem, retArea), WordAt(r.mem, retArea + 4))
    then Done([I32Val(retArea)], r.globals, r.mem)
    else CallTrap
  }

  function SolveArgs(g: Glue, cap: u32, inPtr: u32, inLen: u32): seq<Val> {
    [I32Val(g.retArea), I32Val(g.arena), I32Val(cap), I32Val(inPtr), I32Val(inLen)]
  }

  const SOLVE_V2_TYPE := FuncType([I32, I32, I32, I32, I32], [])
  const SOLVE_TYPE := FuncType([I32, I32], [I32])

  ghost predicate Distinct(w: Wiring) {
    && w.heapBase < w.heapPtr && w.heapPtr < w.arena && w.arena < w.retArea
  }

  ghost predicate IsWrapper(p: Program, f: nat, w: Wiring, cap: u32, maxOut: u32) {
    && Distinct(w) && IsRealloc(p, w.realloc, w.heapBase, w.heapPtr)
    && ValidFunc(p, w.solve) && FuncTypeOf(p, w.solve) == SOLVE_V2_TYPE
    && ValidFunc(p, f) && FuncTypeOf(p, f) == SOLVE_TYPE && p.code[f] == EmitSolveWrapper(w, cap, maxOut)
  }

  ghost predicate HoldsGlue(gs: seq<Val>, w: Wiring, heapBase: u32, g: Glue) {
    && HoldsWord(gs, w.heapBase, heapBase) && HoldsWord(gs, w.heapPtr, g.heap)
    && HoldsWord(gs, w.arena, g.arena) && HoldsWord(gs, w.retArea, g.retArea)
  }

  function SetGlue(gs: seq<Val>, w: Wiring, g: Glue): seq<Val>
    requires w.heapPtr < |gs| && w.arena < |gs| && w.retArea < |gs|
  {
    gs[w.heapPtr := I32Val(g.heap)][w.arena := I32Val(g.arena)][w.retArea := I32Val(g.retArea)]
  }

  // ---------- running it ----------

  datatype Slots = Slots(retArea: u32, arena: u32, outPtr: u32, outLen: u32, outEnd: u32, arenaEnd: u32)

  function SolveLocals(inPtr: u32, inLen: u32, t: Slots): seq<Val> {
    [I32Val(inPtr), I32Val(inLen), I32Val(t.retArea), I32Val(t.arena),
     I32Val(t.outPtr), I32Val(t.outLen), I32Val(t.outEnd), I32Val(t.arenaEnd)]
  }

  lemma RunTrapIf(p: Program, rest: Code, s: State, fuel: nat)
    requires TopWord(s.stack) && s.stack.below == Bottom
    ensures Exec(p, TrapIf(rest), s, fuel)
         == if s.stack.top.n != 0 then Trap else Exec(p, rest, s.(stack := Bottom), fuel)
  {
    RunIf(p, TrapIf(rest), s, fuel);
  }

  /** Calling `cabi_realloc` for a fresh block from the wrapper. */
  lemma RunFreshCall(p: Program, w: Wiring, rest: Code, s: State, heapBase: u32, heap: u32, align: u32, size: u32, fuel: nat)
    requires IsRealloc(p, w.realloc, w.heapBase, w.heapPtr) && align > 0 && fuel > 0
    requires HoldsWord(s.globals, w.heapBase, heapBase) && HoldsWord(s.globals, w.heapPtr, heap) && s.stack == Bottom
    ensures
      var (q, h) := Fresh(heapBase, heap, align, size);
      var c := Then(I32Const(0), Then(I32Const(0), Then(I32Const(align), Then(I32Const(size), Then(Call(w.realloc), rest)))));
      Exec(p, c, s, fuel)
      == Exec(p, rest, s.(stack := Push(I32Val(q), Bottom), globals := s.globals[w.heapPtr := I32Val(h)]), fuel)
  {
    var (q, h) := Fresh(heapBase, heap, align, size);
    var c := Then(I32Const(0), Then(I32Const(0), Then(I32Const(align), Then(I32Const(size), Then(Call(w.realloc), rest)))));
    RunStraight(p, c, s, 4, fuel);
    var full := Push(I32Val(size), Push(I32Val(align), Push(I32Val(0), Push(I32Val(0), Bottom))));
    var s1 := s.(stack := full);
    assert Advance(c, s, 4) == Some((Then(Call(w.realloc), rest), s1));
    var req := Request(0, 0, align, size);
    PopFour(I32Val(0), I32Val(0), I32Val(align), I32Val(size), Bottom);
    EmittedReallocRefines(p, w.realloc, w.heapBase, w.heapPtr, req, s.globals, s.mem, heapBase, heap, fuel - 1);
    FreshIsRealloc(heapBase, heap, align, size, s.mem);
    PushOne(I32Val(q), Bottom);
    assert StepCall(p, Call(w.realloc), s1, fuel)
        == AfterCall(Done([I32Val(q)], s.globals[w.heapPtr := I32Val(h)], s.mem), s.locals, Bottom);
    assert Step(p, Call(w.realloc), s1, fuel) == StepCall(p, Call(w.realloc), s1, fuel);
  }

  lemma PopFour(a: Val, b: Val, c: Val, d: Val, base: Stack)
    ensures Pop(Push(d, Push(c, Push(b, Push(a, base)))), 4) == Some(([a, b, c, d], base))
  {
    PopOne(a, base);
    assert Pop(Push(b, Push(a, base)), 2).value.0 == [a, b];
    assert Pop(Push(c, Push(b, Push(a, base))), 3).value.0 == [a, b, c];
    assert Pop(Push(d, Push(c, Push(b, Push(a, base)))), 4).value.0 == [a, b, c, d];
  }

  lemma PushOne(v: Val, base: Stack)
    ensures PushAll([v], base) == Push(v, base)
  {
    assert [v][..0] == [];
  }

  lemma RunKeepPointer(p: Program, g: nat, local: nat, ptr: u32, s: State, fuel: nat)
    requires local < |s.locals| && g < |s.globals| && s.stack == Push(I32Val(ptr), Bottom)
    ensures Exec(p, KeepPointer(g, local), s, fuel)
         == Normal(State(Bottom, s.locals[local := I32Val(ptr)], s.globals[g := I32Val(ptr)], s.mem))
  {
    RunStraight(p, KeepPointer(g, local), s, 3, fuel);
    assert Advance(KeepPointer(g, local), s, 3)
        == Some((End, State(Bottom, s.locals[local := I32Val(ptr)], s.globals[g := I32Val(ptr)], s.mem)));
  }

  /** Loading a pointer that is allocated on first use. */
  lemma RunLoadOnce(p: Program, w: Wiring, g: nat, local: nat, align: u32, size: u32, rest: Code, s: State,
                    heapBase: u32, heap: u32, ptr: u32, fuel: nat)
    requires IsRealloc(p, w.realloc, w.heapBase, w.heapPtr) && align > 0 && fuel > 0 && g != w.heapPtr && g != w.heapBase
    requires HoldsWord(s.globals, w.heapBase, heapBase) && HoldsWord(s.globals, w.heapPtr, heap)
    requires HoldsWord(s.globals, g, ptr) && s.stack == Bottom && local < |s.locals|
    ensures
      var (q, h) := if ptr != 0 then (ptr, heap) else Fresh(heapBase, heap, align, size);
      Exec(p, LoadOnce(g, local, align, size, w.realloc, rest), s, fuel)
      == Exec(p, rest, State(Bottom, s.locals[local := I32Val(q)],
                             s.globals[w.heapPtr := I32Val(h)][g := I32Val(q)], s.mem), fuel)
  {
    var c := LoadOnce(g, local, align, size, w.realloc, rest);
    var s0 := s.(locals := s.locals[local := I32Val(ptr)]);
    RunStraight(p, c, s, 4, fuel);
    var c1 := IfThen(AllocOnce(g, local, align, size, w.realloc), rest);
    var s1 := s0.(stack := Push(Flag(ptr == 0), Bottom));
    assert Advance(c, s, 4) == Some((c1, s1));
    RunIf(p, c1, s1, fuel);
    if ptr == 0 {
      var (q, h) := Fresh(heapBase, heap, align, size);
      var gs1 := s.globals[w.heapPtr := I32Val(h)];
      var s2 := s0.(stack := Push(I32Val(q), Bottom), globals := gs1);
      RunFreshCall(p, w, KeepPointer(g, local), s0, heapBase, heap, align, size, fuel);
      RunKeepPointer(p, g, local, q, s2, fuel);
      assert s0.locals[local := I32Val(q)] == s.locals[local := I32Val(q)];
    } else {
      assert s.globals[w.heapPtr := I32Val(heap)] == s.globals;
      assert s.globals[g := I32Val(ptr)] == s.globals;
    }
  }

  lemma RunCheckOutput(p: Program, cap: u32, maxOut: u32, inPtr: u32, inLen: u32, t: Slots, gs: seq<Val>, mem: Memory, fuel: nat)
    ensures
      var s := State(Bottom, SolveLocals(inPtr, inLen, t), gs, mem);
      FinishCall(Exec(p, CheckOutput(cap, maxOut), s, fuel), 1)
      == if Accepts(t.arena, cap, maxOut, t.outPtr, t.outLen) then Done([I32Val(t.retArea)], gs, mem) else CallTrap
  {
    var s := State(Bottom, SolveLocals(inPtr, inLen, t), gs, mem);
    var c := CheckOutput(cap, maxOut);
    var c1 := ComputeEnds(cap, CheckStart(CheckEnd(ReturnRetArea())));
    RunStraight(p, c, s, 3, fuel);
    var s1 := s.(stack := Push(Flag(t.outLen > maxOut), Bottom));
    assert Advance(c, s, 3) == Some((TrapIf(c1), s1));
    RunTrapIf(p, c1, s1, fuel);
    if t.outLen <= maxOut { RunCheckBounds(p, cap, inPtr, inLen, t, gs, mem, fuel); }
  }

  lemma RunCheckBounds(p: Program, cap: u32, inPtr: u32, inLen: u32, t: Slots, gs: seq<Val>, mem: Memory, fuel: nat)
    ensures
      var s := State(Bottom, SolveLocals(inPtr, inLen, t), gs, mem);
      FinishCall(Exec(p, ComputeEnds(cap, CheckStart(CheckEnd(ReturnRetArea()))), s, fuel), 1)
      == if t.arena <= t.outPtr && Add32(t.outPtr, t.outLen) <= Add32(t.arena, cap)
         then Done([I32Val(t.retArea)], gs, mem) else CallTrap
  {
    var s := State(Bottom, SolveLocals(inPtr, inLen, t), gs, mem);
    var outEnd, arenaEnd := Add32(t.outPtr, t.outLen), Add32(t.arena, cap);
    var t1 := t.(outEnd := outEnd);
    var t2 := t1.(arenaEnd := arenaEnd);
    var c := ComputeEnds(cap, CheckStart(CheckEnd(ReturnRetArea())));
    RunStraight(p, c, s, 8, fuel);
    assert SolveLocals(inPtr, inLen, t)[OUT_END := I32Val(outEnd)] == SolveLocals(inPtr, inLen, t1);
    assert SolveLocals(inPtr, inLen, t1)[ARENA_END := I32Val(arenaEnd)] == SolveLocals(inPtr, inLen, t2);
    var s2 := s.(locals := SolveLocals(inPtr, inLen, t2));
    assert Advance(c, s, 8) == Some((CheckStart(CheckEnd(ReturnRetArea())), s2));
    RunCompare(p, inPtr, inLen, t2, gs, mem, fuel);
  }

  lemma RunCompare(p: Program, inPtr: u32, inLen: u32, t: Slots, gs: seq<Val>, mem: Memory, fuel: nat)
    ensures
      var s := State(Bottom, SolveLocals(inPtr, inLen, t), gs, mem);
      FinishCall(Exec(p, CheckStart(CheckEnd(ReturnRetArea())), s, fuel), 1)
      == if t.arena <= t.outPtr && t.outEnd <= t.arenaEnd then Done([I32Val(t.retArea)], gs, mem) else CallTrap
  {
    var s := State(Bottom, SolveLocals(inPtr, inLen, t), gs, mem);
    var c2 := CheckEnd(ReturnRetArea());
    RunStraight(p, CheckStart(c2), s, 3, fuel);
    var s1 := s.(stack := Push(Flag(t.outPtr < t.arena), Bottom));
    assert Advance(CheckStart(c2), s, 3) == Some((TrapIf(c2), s1));
    RunTrapIf(p, c2, s1, fuel);
    RunStraight(p, c2, s, 3, fuel);
    var s2 := s.(stack := Push(Flag(t.outEnd > t.arenaEnd), Bottom));
    assert Advance(c2, s, 3) == Some((TrapIf(ReturnRetArea()), s2));
    RunTrapIf(p, ReturnRetArea(), s2, fuel);
    RunStraight(p, ReturnRetArea(), s, 1, fuel);
    assert Advance(ReturnRetArea(), s, 1) == Some((End, s.(stack := Push(I32Val(t.retArea), Bottom))));
    PopOne(I32Val(t.retArea), Bottom);
  }

  lemma RunLoadOutput(p: Program, rest: Code, inPtr: u32, inLen: u32, t: Slots, gs: seq<Val>, mem: Memory, fuel: nat)
    ensures
      var s := State(Bottom, SolveLocals(inPtr, inLen, t), gs, mem);
      Exec(p, LoadOutput(rest), s, fuel)
      == if t.retArea + 8 > |mem| then Trap
         else Exec(p, rest, State(Bottom, SolveLocals(inPtr, inLen,
                t.(outPtr := WordAt(mem, t.retArea), outLen := WordAt(mem, t.retArea + 4))), gs, mem), fuel)
  {
    var s := State(Bottom, SolveLocals(inPtr, inLen, t), gs, mem);
    var c := LoadOutput(rest);
    var half := Then(LocalGet(RET_AREA), Then(I32Load(4), Then(LocalSet(OUT_LEN), rest)));
    RunStraight(p, c, s, 1, fuel);
    assert Advance(c, s, 1) == Some((c.tail, s.(stack := Push(I32Val(t.retArea), Bottom))));
    if t.retArea + 4 <= |mem| {
      var t1 := t.(outPtr := WordAt(mem, t.retArea));
      var s1 := State(Bottom, SolveLocals(inPtr, inLen, t1), gs, mem);
      RunStraight(p, c, s, 3, fuel);
      assert SolveLocals(inPtr, inLen, t)[OUT_PTR := I32Val(t1.outPtr)] == SolveLocals(inPtr, inLen, t1);
      assert Advance(c, s, 3) == Some((half, s1));
      RunLoadLen(p, rest, inPtr, inLen, t1, gs, mem, fuel);
    }
  }

  lemma RunLoadLen(p: Program, rest: Code, inPtr: u32, inLen: u32, t: Slots, gs: seq<Val>, mem: Memory, fuel: nat)
    ensures
      var s := State(Bottom, SolveLocals(inPtr, inLen, t), gs, mem);
      Exec(p, Then(LocalGet(RET_AREA), Then(I32Load(4), Then(LocalSet(OUT_LEN), rest))), s, fuel)
      == if t.retArea + 8 > |mem| then Trap
         else Exec(p, rest, State(Bottom, SolveLocals(inPtr, inLen, t.(outLen := WordAt(mem, t.retArea + 4))), gs, mem), fuel)
  {
    var s := State(Bottom, SolveLocals(inPtr, inLen, t), gs, mem);
    var c := Then(LocalGet(RET_AREA), Then(I32Load(4), Then(LocalSet(OUT_LEN), rest)));
    RunStraight(p, c, s, 1, fuel);
    assert Advance(c, s, 1) == Some((c.tail, s.(stack := Push(I32Val(t.retArea), Bottom))));
    if t.retArea + 8 <= |mem| {
      var t1 := t.(outLen := WordAt(mem, t.retArea + 4));
      RunStraight(p, c, s, 3, fuel);
      assert SolveLocals(inPtr, inLen, t)[OUT_LEN := I32Val(t1.outLen)] == SolveLocals(inPtr, inLen, t1);
      assert Advance(c, s, 3) == Some((rest, State(Bottom, SolveLocals(inPtr, inLen, t1), gs, mem)));
    }
  }

  lemma PopFive(a: Val, b: Val, c: Val, d: Val, e: Val, base: Stack)
    ensures Pop(Push(e, Push(d, Push(c, Push(b, Push(a, base))))), 5) == Some(([a, b, c, d, e], base))
  {
    PopFour(a, b, c, d, base);
    assert [a, b, c, d] + [e] == [a, b, c, d, e];
  }

  /** From the call of `x07_solve_v2` to the end. */
  lemma RunCallSolve(p: Program, w: Wiring, cap: u32, maxOut: u32, inPtr: u32, inLen: u32, t: Slots,
                     gs: seq<Val>, mem: Memory, fuel: nat)
    requires ValidFunc(p, w.solve) && FuncTypeOf(p, w.solve) == SOLVE_V2_TYPE && fuel > 0
    ensures
      var s := State(Bottom, SolveLocals(inPtr, inLen, t), gs, mem);
      var args := [I32Val(t.retArea), I32Val(t.arena), I32Val(cap), I32Val(inPtr), I32Val(inLen)];
      FinishCall(Exec(p, CallSolve(cap, w.solve, LoadOutput(CheckOutput(cap, maxOut))), s, fuel), 1)
      == CheckReported(t.retArea, t.arena, cap, maxOut, Invoke(p, w.solve, args, gs, mem, fuel - 1))
  {
    var s := State(Bottom, SolveLocals(inPtr, inLen, t), gs, mem);
    var rest := LoadOutput(CheckOutput(cap, maxOut));
    var c := CallSolve(cap, w.solve, rest);
    RunStraight(p, c, s, 5, fuel);
    var s1 := s.(stack := Push(I32Val(inLen), Push(I32Val(inPtr), Push(I32Val(cap), Push(I32Val(t.arena),
                          Push(I32Val(t.retArea), Bottom))))));
    assert Advance(c, s, 5) == Some((Then(Call(w.solve), rest), s1));
    PopFive(I32Val(t.retArea), I32Val(t.arena), I32Val(cap), I32Val(inPtr), I32Val(inLen), Bottom);
    var args := [I32Val(t.retArea), I32Val(t.arena), I32Val(cap), I32Val(inPtr), I32Val(inLen)];
    var r := Invoke(p, w.solve, args, gs, mem, fuel - 1);
    assert Step(p, Call(w.solve), s1, fuel) == AfterCall(r, s.locals, Bottom);
    if r.Done? {
      NoResults(p, w.solve, args, gs, mem, fuel - 1);
      RunLoadOutput(p, CheckOutput(cap, maxOut), inPtr, inLen, t, r.globals, r.mem, fuel);
      if t.retArea + 8 <= |r.mem| {
        var t1 := t.(outPtr := WordAt(r.mem, t.retArea), outLen := WordAt(r.mem, t.retArea + 4));
        RunCheckOutput(p, cap, maxOut, inPtr, inLen, t1, r.globals, r.mem, fuel);
      }
    }
  }

  lemma NoResults(p: Program, f: nat, args: seq<Val>, gs: seq<Val>, mem: Memory, fuel: nat)
    requires ValidFunc(p, f) && FuncTypeOf(p, f).results == []
    ensures Invoke(p, f, args, gs, mem, fuel).Done? ==> Invoke(p, f, args, gs, mem, fuel).results == []
  {
  }

  /** The wrapper after its check of the input length: both areas are loaded, then the solver is called. */
  lemma RunPrepared(p: Program, w: Wiring, cap: u32, maxOut: u32, inPtr: u32, inLen: u32,
                    heapBase: u32, g: Glue, gs: seq<Val>, mem: Memory, fuel: nat)
    requires Distinct(w) && IsRealloc(p, w.realloc, w.heapBase, w.heapPtr)
    requires HoldsGlue(gs, w, heapBase, g) && fuel > 0
    requires ValidFunc(p, w.solve) && FuncTypeOf(p, w.solve) == SOLVE_V2_TYPE
    ensures
      var c3 := CallSolve(cap, w.solve, LoadOutput(CheckOutput(cap, maxOut)));
      var c1 := LoadOnce(w.retArea, RET_AREA, 4, 8, w.realloc, LoadOnce(w.arena, ARENA, 8, cap, w.realloc, c3));
      var s := State(Bottom, SolveLocals(inPtr, inLen, Slots(0, 0, 0, 0, 0, 0)), gs, mem);
      var g1 := Prepare(heapBase, cap, g);
      FinishCall(Exec(p, c1, s, fuel), 1)
      == CheckReported(g1.retArea, g1.arena, cap, maxOut,
           Invoke(p, w.solve, SolveArgs(g1, cap, inPtr, inLen), SetGlue(gs, w, g1), mem, fuel - 1))
  {
    hide AlignUp, Fresh, CheckReported, EmitCabiRealloc;
    var t := Slots(0, 0, 0, 0, 0, 0);
    var s := State(Bottom, SolveLocals(inPtr, inLen, t), gs, mem);
    var c3 := CallSolve(cap, w.solve, LoadOutput(CheckOutput(cap, maxOut)));
    var c2 := LoadOnce(w.arena, ARENA, 8, cap, w.realloc, c3);
    var gA := WithRetArea(heapBase, g);
    var gB := WithArena(heapBase, cap, gA);
    var tA := t.(retArea := gA.retArea);
    var tB := tA.(arena := gB.arena);
    RunLoadOnce(p, w, w.retArea, RET_AREA, 4, 8, c2, s, heapBase, g.heap, g.retArea, fuel);
    var gsA := gs[w.heapPtr := I32Val(gA.heap)][w.retArea := I32Val(gA.retArea)];
    assert SolveLocals(inPtr, inLen, t)[RET_AREA := I32Val(gA.retArea)] == SolveLocals(inPtr, inLen, tA);
    var sA := State(Bottom, SolveLocals(inPtr, inLen, tA), gsA, mem);
    RunLoadOnce(p, w, w.arena, ARENA, 8, cap, c3, sA, heapBase, gA.heap, gA.arena, fuel);
    var gsB := gsA[w.heapPtr := I32Val(gB.heap)][w.arena := I32Val(gB.arena)];
    assert SolveLocals(inPtr, inLen, tA)[ARENA := I32Val(gB.arena)] == SolveLocals(inPtr, inLen, tB);
    assert gsB == SetGlue(gs, w, gB);
    RunCallSolve(p, w, cap, maxOut, inPtr, inLen, tB, gsB, mem, fuel);
  }

  /** Running the wrapper: prepare the areas once, call the solver on them, return the area only if its report is accepted. */
  lemma EmittedSolveRefines(p: Program, f: nat, w: Wiring, cap: u32, maxOut: u32, inPtr: u32, inLen: u32,
                            heapBase: u32, g: Glue, gs: seq<Val>, mem: Memory, fuel: nat)
    requires IsWrapper(p, f, w, cap, maxOut) && HoldsGlue(gs, w, heapBase, g) && fuel > 0
    ensures
      Invoke(p, f, [I32Val(inPtr), I32Val(inLen)], gs, mem, fuel)
      == if IsNegative(inLen) then CallTrap
         else
           var g1 := Prepare(heapBase, cap, g);
           CheckReported(g1.retArea, g1.arena, cap, maxOut,
             Invoke(p, w.solve, SolveArgs(g1, cap, inPtr, inLen), SetGlue(gs, w, g1), mem, fuel - 1))
  {
    hide AlignUp, Fresh, CheckReported, EmitCabiRealloc, Prepare, SetGlue;
    var t := Slots(0, 0, 0, 0, 0, 0);
    var s := State(Bottom, SolveLocals(inPtr, inLen, t), gs, mem);
    assert [I32Val(inPtr), I32Val(inLen)] + ZeroLocals(p.code[f].locals) == s.locals;
    var c3 := CallSolve(cap, w.solve, LoadOutput(CheckOutput(cap, maxOut)));
    var c2 := LoadOnce(w.arena, ARENA, 8, cap, w.realloc, c3);
    var c1 := LoadOnce(w.retArea, RET_AREA, 4, 8, w.realloc, c2);
    RunStraight(p, CheckInputLen(c1), s, 3, fuel);
    var s0 := s.(stack := Push(Flag(Signed(inLen) < 0), Bottom));
    assert Advance(CheckInputLen(c1), s, 3) == Some((TrapIf(c1), s0));
    RunTrapIf(p, c1, s0, fuel);
    if !IsNegative(inLen) { RunPrepared(p, w, cap, maxOut, inPtr, inLen, heapBase, g, gs, mem, fuel); }
  }
}
