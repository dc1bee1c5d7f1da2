/**
 The emitted body of `cabi_realloc`, and the proof that running it computes the
 allocator's specification.
 */
module EmittedRealloc {
  import opened Words
  import opened Allocator
  import opened WasmMachine

  // Locals: four parameters, then five i32 temporaries.
  const PTR := 0
  const OLD := 1
  const ALIGN := 2
  const NEW := 3
  const HEAP := 4
  const ALIGNED := 5
  const NEXT := 6
  const COUNT := 7
  const INDEX := 8

  // ---------- the emitted code, one function per commented step ----------

  function IfThen(thn: Code, rest: Code): Code { Then(If(EmptyBlock, thn, End), rest) }

  function ReturnIfEmpty(rest: Code): Code {
    Then(LocalGet(NEW), Then(I32Eqz, IfThen(Then(LocalGet(ALIGN), Then(Return, End)), rest)))
  }

  function TrapIfUnaligned(rest: Code): Code {
    Then(LocalGet(ALIGN), Then(I32Eqz, IfThen(Then(Unreachable, End), rest)))
  }

  function LoadHeap(heapBase: nat, heapPtr: nat, rest: Code): Code {
    Then(GlobalGet(heapPtr), Then(LocalSet(HEAP),
    Then(LocalGet(HEAP), Then(I32Eqz, IfThen(InitHeap(heapBase, heapPtr), rest)))))
  }

  function InitHeap(heapBase: nat, heapPtr: nat): Code {
    Then(GlobalGet(heapBase), Then(LocalSet(HEAP), Then(LocalGet(HEAP), Then(GlobalSet(heapPtr), End))))
  }

  function AlignHeap(rest: Code): Code {
    Then(LocalGet(ALIGN), Then(I32Const(1), Then(Rel(LeU),
    Then(If(EmptyBlock, Then(LocalGet(HEAP), Then(LocalSet(ALIGNED), End)), MaskHeap()), rest))))
  }

  function MaskHeap(): Code {
    Then(LocalGet(HEAP), Then(LocalGet(ALIGN), Then(I32Const(1), Then(Bin(Sub), Then(Bin(Add),
    Then(I32Const(0), Then(LocalGet(ALIGN), Then(Bin(Sub), Then(Bin(And), Then(LocalSet(ALIGNED), End))))))))))
  }

  function BumpHeap(heapPtr: nat, rest: Code): Code {
    Then(LocalGet(ALIGNED), Then(LocalGet(NEW), Then(Bin(Add), Then(LocalSet(NEXT),
    Then(LocalGet(NEXT), Then(GlobalSet(heapPtr), rest))))))
  }

  function CopyOld(rest: Code): Code {
    Then(LocalGet(PTR), Then(I32Eqz, Then(If(EmptyBlock, End,
      Then(LocalGet(OLD), Then(I32Eqz, Then(If(EmptyBlock, End, CountBytes(CopyBlock())), End)))), rest)))
  }

  function CountBytes(rest: Code): Code {
    Then(LocalGet(OLD), Then(LocalSet(COUNT),
    Then(LocalGet(NEW), Then(LocalGet(COUNT), Then(Rel(LtU), IfThen(Then(LocalGet(NEW), Then(LocalSet(COUNT), End)),
    Then(I32Const(0), Then(LocalSet(INDEX), rest))))))))
  }

  function CopyBlock(): Code {
    Then(Block(EmptyBlock, Then(CopyLoop(), End)), End)
  }

  function CopyLoop(): Instr {
    Loop(EmptyBlock, CheckIndex(CopyByte(NextIndex())))
  }

  function CheckIndex(rest: Code): Code {
    Then(LocalGet(INDEX), Then(LocalGet(COUNT), Then(Rel(GeU), Then(BrIf(1), rest))))
  }

  function CopyByte(rest: Code): Code {
    Then(LocalGet(ALIGNED), Then(LocalGet(INDEX), Then(Bin(Add),
    Then(LocalGet(PTR), Then(LocalGet(INDEX), Then(Bin(Add), Then(Load8U(0), Then(Store8(0), rest))))))))
  }

  function NextIndex(): Code {
    Then(LocalGet(INDEX), Then(I32Const(1), Then(Bin(Add), Then(LocalSet(INDEX), Then(Br(0), End)))))
  }

  function ReallocCode(heapBase: nat, heapPtr: nat): Code {
    ReturnIfEmpty(TrapIfUnaligned(LoadHeap(heapBase, heapPtr, AlignHeap(BumpHeap(heapPtr,
      CopyOld(Then(LocalGet(ALIGNED), End)))))))
  }

  function EmitCabiRealloc(heapBase: nat, heapPtr: nat): FuncBody {
    FuncBody([I32, I32, I32, I32, I32], ReallocCode(heapBase, heapPtr))
  }

  // ---------- machine states while it runs ----------

  datatype Temps = Temps(heap: u32, aligned: u32, next: u32, count: u32, index: u32)

  function Locals(q: Request, t: Temps): seq<Val> {
    [I32Val(q.ptr), I32Val(q.oldSize), I32Val(q.align), I32Val(q.newSize),
     I32Val(t.heap), I32Val(t.aligned), I32Val(t.next), I32Val(t.count), I32Val(t.index)]
  }

  function At(q: Request, t: Temps, gs: seq<Val>, mem: Memory): State {
    State(Bottom, Locals(q, t), gs, mem)
  }

  ghost predicate HoldsWord(gs: seq<Val>, g: nat, w: u32) { g < |gs| && gs[g] == I32Val(w) }

  lemma RunInitHeap(p: Program, q: Request, t: Temps, gs: seq<Val>, mem: Memory, hb: nat, hp: nat, heapBase: u32,
                    fuel: nat)
    requires HoldsWord(gs, hb, heapBase) && hp < |gs|
    ensures Exec(p, InitHeap(hb, hp), At(q, t, gs, mem), fuel)
         == Normal(At(q, t.(heap := heapBase), gs[hp := I32Val(heapBase)], mem))
  {
    var t2 := t.(heap := heapBase);
    RunStraight(p, InitHeap(hb, hp), At(q, t, gs, mem), 4, fuel);
    assert Locals(q, t)[HEAP := I32Val(heapBase)] == Locals(q, t2);
    assert Advance(InitHeap(hb, hp), At(q, t, gs, mem), 4) == Some((End, At(q, t2, gs[hp := I32Val(heapBase)], mem)));
  }

  lemma RunLoadHeap(p: Program, rest: Code, q: Request, t: Temps, gs: seq<Val>, mem: Memory, hb: nat, hp: nat,
                    heapBase: u32, heap: u32, fuel: nat)
    requires HoldsWord(gs, hb, heapBase) && HoldsWord(gs, hp, heap) && hb != hp
    ensures
      var start := HeapStart(heapBase, heap);
      Exec(p, LoadHeap(hb, hp, rest), At(q, t, gs, mem), fuel)
      == Exec(p, rest, At(q, t.(heap := start), gs[hp := I32Val(start)], mem), fuel)
  {
    var c, s := LoadHeap(hb, hp, rest), At(q, t, gs, mem);
    var t1 := t.(heap := heap);
    RunStraight(p, c, s, 4, fuel);
    assert Locals(q, t)[HEAP := I32Val(heap)] == Locals(q, t1);
    var c1, s1 := IfThen(InitHeap(hb, hp), rest), At(q, t1, gs, mem).(stack := Push(Flag(heap == 0), Bottom));
    assert Advance(c, s, 4) == Some((c1, s1));
    RunIf(p, c1, s1, fuel);
    if heap == 0 {
      RunInitHeap(p, q, t1, gs, mem, hb, hp, heapBase, fuel);
    } else {
      assert gs[hp := I32Val(heap)] == gs;
    }
  }

  lemma RunAlignHeap(p: Program, rest: Code, q: Request, t: Temps, gs: seq<Val>, mem: Memory, fuel: nat)
    ensures Exec(p, AlignHeap(rest), At(q, t, gs, mem), fuel)
         == Exec(p, rest, At(q, t.(aligned := AlignUp(t.heap, q.align)), gs, mem), fuel)
  {
    var c, s := AlignHeap(rest), At(q, t, gs, mem);
    RunStraight(p, c, s, 3, fuel);
    var c1, s1 := Advance(c, s, 3).value.0, s.(stack := Push(Flag(q.align <= 1), Bottom));
    assert Advance(c, s, 3).value.1 == s1;
    RunIf(p, c1, s1, fuel);
    if q.align <= 1 {
      RunKeepHeap(p, q, t, gs, mem, fuel);
    } else {
      RunMaskHeap(p, q, t, gs, mem, fuel);
    }
  }

  lemma RunKeepHeap(p: Program, q: Request, t: Temps, gs: seq<Val>, mem: Memory, fuel: nat)
    ensures Exec(p, Then(LocalGet(HEAP), Then(LocalSet(ALIGNED), End)), At(q, t, gs, mem), fuel)
         == Normal(At(q, t.(aligned := t.heap), gs, mem))
  {
    var c, s := Then(LocalGet(HEAP), Then(LocalSet(ALIGNED), End)), At(q, t, gs, mem);
    RunStraight(p, c, s, 2, fuel);
    assert Locals(q, t)[ALIGNED := I32Val(t.heap)] == Locals(q, t.(aligned := t.heap));
    assert Advance(c, s, 2) == Some((End, At(q, t.(aligned := t.heap), gs, mem)));
  }

  lemma RunMaskHeap(p: Program, q: Request, t: Temps, gs: seq<Val>, mem: Memory, fuel: nat)
    ensures
      var aligned := BitAnd(Add32(t.heap, Sub32(q.align, 1)), Sub32(0, q.align));
      Exec(p, MaskHeap(), At(q, t, gs, mem), fuel) == Normal(At(q, t.(aligned := aligned), gs, mem))
  {
    var s := At(q, t, gs, mem);
    var sum, mask := Add32(t.heap, Sub32(q.align, 1)), Sub32(0, q.align);
    var s1 := s.(stack := Push(I32Val(mask), Push(I32Val(sum), Bottom)));
    RunStraight(p, MaskHeap(), s, 8, fuel);
    assert Advance(MaskHeap(), s, 8) == Some((AndIntoAligned(), s1));
    RunAndIntoAligned(p, q, t, gs, mem, sum, mask, fuel);
  }

  function AndIntoAligned(): Code { Then(Bin(And), Then(LocalSet(ALIGNED), End)) }

  lemma RunAndIntoAligned(p: Program, q: Request, t: Temps, gs: seq<Val>, mem: Memory, x: u32, y: u32, fuel: nat)
    ensures
      var s := At(q, t, gs, mem).(stack := Push(I32Val(y), Push(I32Val(x), Bottom)));
      Exec(p, AndIntoAligned(), s, fuel) == Normal(At(q, t.(aligned := BitAnd(x, y)), gs, mem))
  {
    var s := At(q, t, gs, mem).(stack := Push(I32Val(y), Push(I32Val(x), Bottom)));
    RunStraight(p, AndIntoAligned(), s, 2, fuel);
    var aligned := BitAnd(x, y);
    assert Locals(q, t)[ALIGNED := I32Val(aligned)] == Locals(q, t.(aligned := aligned));
    assert Advance(AndIntoAligned(), s, 2) == Some((End, At(q, t.(aligned := aligned), gs, mem)));
  }

  lemma RunBumpHeap(p: Program, rest: Code, q: Request, t: Temps, gs: seq<Val>, mem: Memory, hp: nat, fuel: nat)
    requires hp < |gs|
    ensures
      var next := Add32(t.aligned, q.newSize);
      Exec(p, BumpHeap(hp, rest), At(q, t, gs, mem), fuel)
      == Exec(p, rest, At(q, t.(next := next), gs[hp := I32Val(next)], mem), fuel)
  {
    var next := Add32(t.aligned, q.newSize);
    RunStraight(p, BumpHeap(hp, rest), At(q, t, gs, mem), 6, fuel);
    assert Locals(q, t)[NEXT := I32Val(next)] == Locals(q, t.(next := next));
    assert Advance(BumpHeap(hp, rest), At(q, t, gs, mem), 6)
        == Some((rest, At(q, t.(next := next), gs[hp := I32Val(next)], mem)));
  }

  // ---------- the copy ----------

  lemma RunCheckIndex(p: Program, q: Request, t: Temps, gs: seq<Val>, mem: Memory, fuel: nat)
    ensures
      var s := At(q, t, gs, mem);
      Exec(p, CopyLoop().body, s, fuel)
      == if t.index >= t.count then Branching(1, s) else Exec(p, CopyByte(NextIndex()), s, fuel)
  {
    var c, s := CopyLoop().body, At(q, t, gs, mem);
    RunStraight(p, c, s, 3, fuel);
    var s1 := s.(stack := Push(Flag(t.index >= t.count), Bottom));
    assert Advance(c, s, 3) == Some((Then(BrIf(1), CopyByte(NextIndex())), s1));
  }

  lemma RunNextIndex(p: Program, q: Request, t: Temps, gs: seq<Val>, mem: Memory, fuel: nat)
    requires t.index < t.count
    ensures Exec(p, NextIndex(), At(q, t, gs, mem), fuel)
         == Branching(0, At(q, t.(index := t.index + 1), gs, mem))
  {
    var s, t1 := At(q, t, gs, mem), t.(index := t.index + 1);
    RunStraight(p, NextIndex(), s, 4, fuel);
    assert Locals(q, t)[INDEX := I32Val(t.index + 1)] == Locals(q, t1);
    assert Advance(NextIndex(), s, 4) == Some((Then(Br(0), End), At(q, t1, gs, mem)));
  }

  lemma RunCopyByte(p: Program, q: Request, t: Temps, gs: seq<Val>, mem: Memory, fuel: nat)
    requires t.index < t.count
    ensures
      var d, a := Add32(t.aligned, t.index), Add32(q.ptr, t.index);
      Exec(p, CopyByte(NextIndex()), At(q, t, gs, mem), fuel)
      == if d < |mem| && a < |mem|
         then Branching(0, At(q, t.(index := t.index + 1), gs, mem[d := mem[a]]))
         else Trap
  {
    var c, s := CopyByte(NextIndex()), At(q, t, gs, mem);
    var d, a := Add32(t.aligned, t.index), Add32(q.ptr, t.index);
    RunStraight(p, c, s, 6, fuel);
    assert Advance(c, s, 6) == Some((MoveByte(), s.(stack := Push(I32Val(a), Push(I32Val(d), Bottom)))));
    RunMoveByte(p, s, d, a, fuel);
    if d < |mem| && a < |mem| {
      RunNextIndex(p, q, t, gs, mem[d := mem[a]], fuel);
    }
  }

  function MoveByte(): Code { Then(Load8U(0), Then(Store8(0), NextIndex())) }

  lemma RunMoveByte(p: Program, s: State, d: u32, a: u32, fuel: nat)
    requires s.stack == Bottom
    ensures Exec(p, MoveByte(), s.(stack := Push(I32Val(a), Push(I32Val(d), Bottom))), fuel)
         == if d < |s.mem| && a < |s.mem| then Exec(p, NextIndex(), s.(mem := s.mem[d := s.mem[a]]), fuel) else Trap
  {
    var s1 := s.(stack := Push(I32Val(a), Push(I32Val(d), Bottom)));
    if a < |s.mem| {
      var s2 := s.(stack := Push(I32Val(s.mem[a]), Push(I32Val(d), Bottom)));
      assert SimpleStep(Load8U(0), s1) == Normal(s2);
      assert Exec(p, MoveByte(), s1, fuel) == Exec(p, Then(Store8(0), NextIndex()), s2, fuel);
      if d < |s.mem| {
        assert SimpleStep(Store8(0), s2) == Normal(s.(mem := s.mem[d := s.mem[a]]));
      } else {
        assert SimpleStep(Store8(0), s2) == Trap;
        assert Exec(p, Then(Store8(0), NextIndex()), s2, fuel) == Trap;
      }
    } else {
      assert SimpleStep(Load8U(0), s1) == Trap;
    }
  }

  /** The loop runs the specification's copy, using one unit of fuel per byte. */
  lemma {:induction false} RunCopyLoop(p: Program, q: Request, t: Temps, gs: seq<Val>, mem: Memory, fuel: nat)
    requires t.index <= t.count && fuel >= t.count - t.index
    ensures
      var r := CopyFrom(mem, t.aligned, q.ptr, t.index, t.count);
      Step(p, CopyLoop(), At(q, t, gs, mem), fuel)
      == if r.None? then Trap else Branching(0, At(q, t.(index := t.count), gs, r.value))
    decreases t.count - t.index
  {
    var s := At(q, t, gs, mem);
    RunCheckIndex(p, q, t, gs, mem, fuel);
    assert Enter(p, EmptyBlock, Bottom) == Some(Entry(Bottom, Bottom, 0, 0));
    if t.index < t.count {
      RunCopyByte(p, q, t, gs, mem, fuel);
      var d, a := Add32(t.aligned, t.index), Add32(q.ptr, t.index);
      if d < |mem| && a < |mem| {
        RunCopyLoop(p, q, t.(index := t.index + 1), gs, mem[d := mem[a]], fuel - 1);
      }
    }
  }

  lemma RunCopyBlock(p: Program, q: Request, t: Temps, gs: seq<Val>, mem: Memory, fuel: nat)
    requires t.index <= t.count && fuel >= t.count - t.index
    ensures
      var r := CopyFrom(mem, t.aligned, q.ptr, t.index, t.count);
      Exec(p, CopyBlock(), At(q, t, gs, mem), fuel)
      == if r.None? then Trap else Normal(At(q, t.(index := t.count), gs, r.value))
  {
    var s := At(q, t, gs, mem);
    RunCopyLoop(p, q, t, gs, mem, fuel);
    var inner := Then(CopyLoop(), End);
    assert Enter(p, EmptyBlock, Bottom) == Some(Entry(Bottom, Bottom, 0, 0));
    assert Exec(p, inner, s, fuel) == Step(p, CopyLoop(), s, fuel);
    assert Step(p, CopyBlock().head, s, fuel) == StepBlock(p, EmptyBlock, inner, s, fuel);
  }

  function CopyRest(): Code { Then(I32Const(0), Then(LocalSet(INDEX), CopyBlock())) }

  lemma RunCountBytes(p: Program, q: Request, t: Temps, gs: seq<Val>, mem: Memory, fuel: nat)
    requires fuel >= Kept(q)
    ensures
      var r := CopyFrom(mem, t.aligned, q.ptr, 0, Kept(q));
      Exec(p, CountBytes(CopyBlock()), At(q, t, gs, mem), fuel)
      == if r.None? then Trap else Normal(At(q, t.(count := Kept(q), index := Kept(q)), gs, r.value))
  {
    var c, s := CountBytes(CopyBlock()), At(q, t, gs, mem);
    var t1, t2 := t.(count := q.oldSize), t.(count := Kept(q));
    RunStraight(p, c, s, 5, fuel);
    assert Locals(q, t)[COUNT := I32Val(q.oldSize)] == Locals(q, t1);
    var s1 := At(q, t1, gs, mem);
    var fewer := Then(LocalGet(NEW), Then(LocalSet(COUNT), End));
    var c2, s2 := IfThen(fewer, CopyRest()), s1.(stack := Push(Flag(q.newSize < q.oldSize), Bottom));
    assert Advance(c, s, 5) == Some((c2, s2));
    RunIf(p, c2, s2, fuel);
    if q.newSize < q.oldSize {
      RunStraight(p, fewer, s1, 2, fuel);
      assert Locals(q, t1)[COUNT := I32Val(q.newSize)] == Locals(q, t2);
      assert Advance(fewer, s1, 2) == Some((End, At(q, t2, gs, mem)));
    }
    RunCopyRest(p, q, t2, gs, mem, fuel);
  }

  lemma RunCopyRest(p: Program, q: Request, t: Temps, gs: seq<Val>, mem: Memory, fuel: nat)
    requires fuel >= t.count
    ensures
      var r := CopyFrom(mem, t.aligned, q.ptr, 0, t.count);
      Exec(p, CopyRest(), At(q, t, gs, mem), fuel)
      == if r.None? then Trap else Normal(At(q, t.(index := t.count), gs, r.value))
  {
    var s, t1 := At(q, t, gs, mem), t.(index := 0);
    RunStraight(p, CopyRest(), s, 2, fuel);
    assert Locals(q, t)[INDEX := I32Val(0)] == Locals(q, t1);
    assert Advance(CopyRest(), s, 2) == Some((CopyBlock(), At(q, t1, gs, mem)));
    RunCopyBlock(p, q, t1, gs, mem, fuel);
  }

  function CopyIfOld(): Code {
    Then(LocalGet(OLD), Then(I32Eqz, Then(If(EmptyBlock, End, CountBytes(CopyBlock())), End)))
  }

  /** The outcome of the copying part: the state it leaves, or a trap. */
  function AfterCopy(q: Request, t: Temps, gs: seq<Val>, mem: Memory): Outcome {
    if !Copies(q) then Normal(At(q, t, gs, mem))
    else
      var r := CopyFrom(mem, t.aligned, q.ptr, 0, Kept(q));
      if r.None? then Trap else Normal(At(q, t.(count := Kept(q), index := Kept(q)), gs, r.value))
  }

  lemma RunCopyIfOld(p: Program, q: Request, t: Temps, gs: seq<Val>, mem: Memory, fuel: nat)
    requires fuel >= Kept(q) && q.ptr != 0
    ensures Exec(p, CopyIfOld(), At(q, t, gs, mem), fuel) == AfterCopy(q, t, gs, mem)
  {
    var s := At(q, t, gs, mem);
    RunStraight(p, CopyIfOld(), s, 2, fuel);
    var c1, s1 := CopyIfOld().tail.tail, s.(stack := Push(Flag(q.oldSize == 0), Bottom));
    assert Advance(CopyIfOld(), s, 2) == Some((c1, s1));
    RunIf(p, c1, s1, fuel);
    RunCountBytes(p, q, t, gs, mem, fuel);
  }

  lemma RunCopyOld(p: Program, rest: Code, q: Request, t: Temps, gs: seq<Val>, mem: Memory, fuel: nat)
    requires fuel >= Kept(q)
    ensures Exec(p, CopyOld(rest), At(q, t, gs, mem), fuel)
         == Continue(p, AfterCopy(q, t, gs, mem), rest, fuel)
  {
    var c, s := CopyOld(rest), At(q, t, gs, mem);
    RunStraight(p, c, s, 2, fuel);
    var c1, s1 := Then(If(EmptyBlock, End, CopyIfOld()), rest), s.(stack := Push(Flag(q.ptr == 0), Bottom));
    assert Advance(c, s, 2) == Some((c1, s1));
    RunIf(p, c1, s1, fuel);
    if q.ptr != 0 { RunCopyIfOld(p, q, t, gs, mem, fuel); }
  }

  // ---------- the whole function ----------

  function Args(q: Request): seq<Val> {
    [I32Val(q.ptr), I32Val(q.oldSize), I32Val(q.align), I32Val(q.newSize)]
  }

  const REALLOC_TYPE := FuncType([I32, I32, I32, I32], [I32])

  /** Function f of p is the emitted `cabi_realloc` over globals hb (`__heap_base`) and hp (the heap pointer). */
  ghost predicate IsRealloc(p: Program, f: nat, hb: nat, hp: nat) {
    ValidFunc(p, f) && hb != hp && FuncTypeOf(p, f) == REALLOC_TYPE && p.code[f] == EmitCabiRealloc(hb, hp)
  }

  function ReallocResult(r: AllocResult, gs: seq<Val>, hp: nat): CallResult
    requires hp < |gs|
  {
    match r
    case Trapped => CallTrap
    case Allocated(a, h, m) => Done([I32Val(a)], gs[hp := I32Val(h)], m)
  }

  const START := Temps(0, 0, 0, 0, 0)

  lemma RunGuards(p: Program, rest: Code, q: Request, gs: seq<Val>, mem: Memory, fuel: nat)
    ensures Exec(p, ReturnIfEmpty(TrapIfUnaligned(rest)), At(q, START, gs, mem), fuel)
         == if q.newSize == 0 then Returning(At(q, START, gs, mem).(stack := Push(I32Val(q.align), Bottom)))
            else if q.align == 0 then Trap
            else Exec(p, rest, At(q, START, gs, mem), fuel)
  {
    var c, s := ReturnIfEmpty(TrapIfUnaligned(rest)), At(q, START, gs, mem);
    RunStraight(p, c, s, 2, fuel);
    var s1 := s.(stack := Push(Flag(q.newSize == 0), Bottom));
    assert Advance(c, s, 2) == Some((c.tail.tail, s1));
    RunIf(p, c.tail.tail, s1, fuel);
    if q.newSize == 0 {
      var ret := Then(LocalGet(ALIGN), Then(Return, End));
      RunStraight(p, ret, s, 1, fuel);
      assert Advance(ret, s, 1) == Some((ret.tail, s.(stack := Push(I32Val(q.align), Bottom))));
    } else {
      RunTrapIfUnaligned(p, rest, q, gs, mem, fuel);
    }
  }

  lemma RunTrapIfUnaligned(p: Program, rest: Code, q: Request, gs: seq<Val>, mem: Memory, fuel: nat)
    ensures Exec(p, TrapIfUnaligned(rest), At(q, START, gs, mem), fuel)
         == if q.align == 0 then Trap else Exec(p, rest, At(q, START, gs, mem), fuel)
  {
    var c, s := TrapIfUnaligned(rest), At(q, START, gs, mem);
    RunStraight(p, c, s, 2, fuel);
    var s1 := s.(stack := Push(Flag(q.align == 0), Bottom));
    assert Advance(c, s, 2) == Some((c.tail.tail, s1));
    RunIf(p, c.tail.tail, s1, fuel);
  }

  lemma RunPlacement(p: Program, q: Request, gs: seq<Val>, mem: Memory, hb: nat, hp: nat, heapBase: u32, heap: u32, fuel: nat)
    requires HoldsWord(gs, hb, heapBase) && HoldsWord(gs, hp, heap) && hb != hp && fuel >= Kept(q)
    ensures
      var aligned := AlignUp(HeapStart(heapBase, heap), q.align);
      var code := LoadHeap(hb, hp, AlignHeap(BumpHeap(hp, CopyOld(Then(LocalGet(ALIGNED), End)))));
      FinishCall(Exec(p, code, At(q, START, gs, mem), fuel), 1)
      == ReallocResult(PlaceAt(aligned, mem, q), gs, hp)
  {
    var last := Then(LocalGet(ALIGNED), End);
    var c3 := CopyOld(last);
    var c2 := BumpHeap(hp, c3);
    var c1 := AlignHeap(c2);
    var start := HeapStart(heapBase, heap);
    var aligned := AlignUp(start, q.align);
    var next := Add32(aligned, q.newSize);
    var t1 := START.(heap := start);
    var t2 := t1.(aligned := aligned);
    var t3 := t2.(next := next);
    var gs1 := gs[hp := I32Val(start)];
    var gs2 := gs[hp := I32Val(next)];
    RunLoadHeap(p, c1, q, START, gs, mem, hb, hp, heapBase, heap, fuel);
    RunAlignHeap(p, c2, q, t1, gs1, mem, fuel);
    RunBumpHeap(p, c3, q, t2, gs1, mem, hp, fuel);
    assert gs1[hp := I32Val(next)] == gs2;
    RunCopyOld(p, last, q, t3, gs2, mem, fuel);
    ReturnAligned(p, q, t3, gs2, mem, fuel);
  }

  lemma ReturnAligned(p: Program, q: Request, t: Temps, gs: seq<Val>, mem: Memory, fuel: nat)
    ensures
      var copied := if Copies(q) then CopyFrom(mem, t.aligned, q.ptr, 0, Kept(q)) else Some(mem);
      FinishCall(Continue(p, AfterCopy(q, t, gs, mem), Then(LocalGet(ALIGNED), End), fuel), 1)
      == if copied.None? then CallTrap else Done([I32Val(t.aligned)], gs, copied.value)
  {
    var o := AfterCopy(q, t, gs, mem);
    var last := Then(LocalGet(ALIGNED), End);
    if o.Normal? {
      RunStraight(p, last, o.st, 1, fuel);
      assert Advance(last, o.st, 1) == Some((End, o.st.(stack := Push(I32Val(t.aligned), Bottom))));
      PopOne(I32Val(t.aligned), Bottom);
    }
  }

  /** Running the emitted function is the allocator's specification: pointer, heap pointer and memory, or a trap. */
  lemma EmittedReallocRefines(p: Program, f: nat, hb: nat, hp: nat, q: Request, gs: seq<Val>, mem: Memory,
                              heapBase: u32, heap: u32, fuel: nat)
    requires IsRealloc(p, f, hb, hp) && HoldsWord(gs, hb, heapBase) && HoldsWord(gs, hp, heap)
    requires fuel >= Kept(q)
    ensures Invoke(p, f, Args(q), gs, mem, fuel) == ReallocResult(Realloc(heapBase, heap, mem, q), gs, hp)
  {
    var s := State(Bottom, Args(q) + ZeroLocals(p.code[f].locals), gs, mem);
    assert s == At(q, START, gs, mem);
    var rest := LoadHeap(hb, hp, AlignHeap(BumpHeap(hp, CopyOld(Then(LocalGet(ALIGNED), End)))));
    assert p.code[f].code == ReturnIfEmpty(TrapIfUnaligned(rest));
    RunGuards(p, rest, q, gs, mem, fuel);
    if q.newSize == 0 {
      PopOne(I32Val(q.align), Bottom);
      assert gs[hp := I32Val(heap)] == gs;
    } else if q.align != 0 {
      RunPlacement(p, q, gs, mem, hb, hp, heapBase, heap, fuel);
    }
  }

  /** With any fuel at all the emitted function gives that result or runs out of fuel; `Kept` units always suffice. */
  lemma EmittedReallocAnyFuel(p: Program, f: nat, hb: nat, hp: nat, q: Request, gs: seq<Val>, mem: Memory,
                              heapBase: u32, heap: u32, fuel: nat)
    requires IsRealloc(p, f, hb, hp) && HoldsWord(gs, hb, heapBase) && HoldsWord(gs, hp, heap)
    ensures
      var r := Invoke(p, f, Args(q), gs, mem, fuel);
      r == ReallocResult(Realloc(heapBase, heap, mem, q), gs, hp) || (r == CallOutOfFuel && fuel < Kept(q))
  {
    if fuel >= Kept(q) {
      EmittedReallocRefines(p, f, hb, hp, q, gs, mem, heapBase, heap, fuel);
    } else {
      EmittedReallocRefines(p, f, hb, hp, q, gs, mem, heapBase, heap, Kept(q));
      if Invoke(p, f, Args(q), gs, mem, fuel) != CallOutOfFuel {
        InvokeMoreFuel(p, f, Args(q), gs, mem, fuel, Kept(q));
      }
    }
  }
}
