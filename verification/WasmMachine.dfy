/**
 A core WebAssembly machine: structured code, operand stack, locals, globals,
 one linear memory, calls, branches and traps. Instructions that touch only the
 operand stack and the memory are given by their effect (`Prim`).
 `fuel` bounds loop iterations and call depth; statements quantify over all fuel.
 */
module WasmMachine {
  import opened Words
  import opened Allocator

  datatype ValType = I32 | I64 | F32 | F64 | V128 | RefType
  datatype FuncType = FuncType(params: seq<ValType>, results: seq<ValType>)

  datatype Val = I32Val(n: u32) | WideVal(ty: ValType, bits: nat)
  datatype Stack = Bottom | Push(top: Val, below: Stack)

  datatype BlockType = EmptyBlock | ValueBlock(ty: ValType) | TypedBlock(typeIdx: nat)

  datatype BinOp = Add | Sub | And
  datatype RelOp = LeU | LtU | GeU | GtU | LtS

  type Effect = (Stack, Memory) -> Option<(Stack, Memory)>

  datatype Instr =
    | I32Const(n: u32)
    | LocalGet(l: nat) | LocalSet(l: nat) | LocalTee(l: nat)
    | GlobalGet(g: nat) | GlobalSet(g: nat)
    | I32Eqz | Bin(bop: BinOp) | Rel(rop: RelOp)
    | Load8U(offset: u32) | Store8(offset: u32) | I32Load(offset: u32)
    | Prim(effect: Effect)
    | Block(bt: BlockType, body: Code) | Loop(bt: BlockType, body: Code)
    | If(bt: BlockType, thn: Code, els: Code)
    | Br(depth: nat) | BrIf(depth: nat) | BrTable(depths: seq<nat>, default: nat)
    | Return | Unreachable
    | Call(f: nat)

  datatype Code = End | Then(head: Instr, tail: Code)

  datatype FuncBody = FuncBody(locals: seq<ValType>, code: Code)

  /** The part of a module that running code refers to. */
  datatype Program = Program(types: seq<FuncType>, funcs: seq<nat>, code: seq<FuncBody>)

  datatype State = State(stack: Stack, locals: seq<Val>, globals: seq<Val>, mem: Memory)

  datatype Outcome =
    | Normal(st: State)
    | Branching(depth: nat, st: State)
    | Returning(st: State)
    | Trap
    | Stuck        // no validated module reaches this
    | OutOfFuel

  datatype CallResult =
    | Done(results: seq<Val>, globals: seq<Val>, mem: Memory)
    | CallTrap
    | CallStuck
    | CallOutOfFuel

  // ---------- stacks ----------

  function Over(s: Stack, base: Stack): Stack {
    match s
    case Bottom => base
    case Push(v, t) => Push(v, Over(t, base))
  }

  /** Pop n values; the deepest popped value comes first. */
  function Pop(s: Stack, n: nat): Option<(seq<Val>, Stack)> {
    if n == 0 then Some(([], s))
    else
      match s
      case Bottom => None
      case Push(v, t) =>
        var r := Pop(t, n - 1);
        if r.None? then None else Some((r.value.0 + [v], r.value.1))
  }

  lemma PopOne(v: Val, base: Stack)
    ensures Pop(Push(v, base), 1) == Some(([v], base))
  {
    assert Pop(base, 0) == Some(([], base));
    assert [] + [v] == [v];
  }

  function PushAll(vs: seq<Val>, base: Stack): Stack {
    if vs == [] then base else Push(vs[|vs| - 1], PushAll(vs[..|vs| - 1], base))
  }

  function ZeroOf(ty: ValType): Val {
    if ty == I32 then I32Val(0) else WideVal(ty, 0)
  }

  function ZeroLocals(tys: seq<ValType>): (zs: seq<Val>)
    ensures |zs| == |tys|
  {
    seq(|tys|, i requires 0 <= i < |tys| => ZeroOf(tys[i]))
  }

  // ---------- words ----------

  function IsNegative(x: u32): bool { x >= 0x8000_0000 }

  function Signed(x: u32): int { if IsNegative(x) then x - TWO32 else x }

  function BinVal(op: BinOp, x: u32, y: u32): u32 {
    match op
    case Add => Add32(x, y)
    case Sub => Sub32(x, y)
    case And => BitAnd(x, y)
  }

  function RelHolds(op: RelOp, x: u32, y: u32): bool {
    match op
    case LeU => x <= y
    case LtU => x < y
    case GeU => x >= y
    case GtU => x > y
    case LtS => Signed(x) < Signed(y)
  }

  function Flag(b: bool): Val { I32Val(if b then 1 else 0) }

  /** The little-endian word at address a. */
  function WordAt(mem: Memory, a: nat): u32
    requires a + 4 <= |mem|
  {
    (mem[a] as int) + 0x100 * (mem[a + 1] as int) + 0x1_0000 * (mem[a + 2] as int) + 0x100_0000 * (mem[a + 3] as int)
  }

  // ---------- instructions without control ----------

  predicate IsSimple(i: Instr) {
    i.I32Const? || i.LocalGet? || i.LocalSet? || i.LocalTee? || i.GlobalGet? || i.GlobalSet? || i.I32Eqz? || i.Bin? || i.Rel?
    || i.Load8U? || i.Store8? || i.I32Load? || i.Prim? || i.Unreachable?
  }

  function SimpleStep(i: Instr, s: State): Outcome
    requires IsSimple(i)
  {
    match i
    case I32Const(n) => Normal(s.(stack := Push(I32Val(n), s.stack)))
    case LocalGet(l) =>
      if l < |s.locals| then Normal(s.(stack := Push(s.locals[l], s.stack))) else Stuck
    case LocalSet(l) =>
      if l < |s.locals| && s.stack.Push?
      then Normal(s.(stack := s.stack.below, locals := s.locals[l := s.stack.top])) else Stuck
    case LocalTee(l) =>
      if l < |s.locals| && s.stack.Push? then Normal(s.(locals := s.locals[l := s.stack.top])) else Stuck
    case GlobalGet(g) =>
      if g < |s.globals| then Normal(s.(stack := Push(s.globals[g], s.stack))) else Stuck
    case GlobalSet(g) =>
      if g < |s.globals| && s.stack.Push?
      then Normal(s.(stack := s.stack.below, globals := s.globals[g := s.stack.top])) else Stuck
    case I32Eqz =>
      if TopWord(s.stack) then Normal(s.(stack := Push(Flag(s.stack.top.n == 0), s.stack.below))) else Stuck
    case Bin(op) =>
      if TwoWords(s.stack)
      then Normal(s.(stack := Push(I32Val(BinVal(op, s.stack.below.top.n, s.stack.top.n)), s.stack.below.below)))
      else Stuck
    case Rel(op) =>
      if TwoWords(s.stack)
      then Normal(s.(stack := Push(Flag(RelHolds(op, s.stack.below.top.n, s.stack.top.n)), s.stack.below.below)))
      else Stuck
    case Load8U(off) =>
      if !TopWord(s.stack) then Stuck
      else if s.stack.top.n + off < |s.mem|
      then Normal(s.(stack := Push(I32Val(s.mem[s.stack.top.n + off]), s.stack.below))) else Trap
    case Store8(off) =>
      if !TwoWords(s.stack) then Stuck
      else if s.stack.below.top.n + off < |s.mem|
      then Normal(s.(stack := s.stack.below.below, mem := s.mem[s.stack.below.top.n + off := s.stack.top.n % 256]))
      else Trap
    case I32Load(off) =>
      if !TopWord(s.stack) then Stuck
      else if s.stack.top.n + off + 4 <= |s.mem|
      then Normal(s.(stack := Push(I32Val(WordAt(s.mem, s.stack.top.n + off)), s.stack.below))) else Trap
    case Prim(effect) =>
      var r := effect(s.stack, s.mem);
      if r.None? then Trap else Normal(s.(stack := r.value.0, mem := r.value.1))
    case Unreachable => Trap
  }

  predicate TopWord(s: Stack) { s.Push? && s.top.I32Val? }

  predicate TwoWords(s: Stack) { TopWord(s) && TopWord(s.below) }

  // ---------- control ----------

  /** Parameters and results of a block; None for a type index out of range. */
  function Arity(p: Program, bt: BlockType): Option<(nat, nat)> {
    match bt
    case EmptyBlock => Some((0, 0))
    case ValueBlock(_) => Some((0, 1))
    case TypedBlock(t) =>
      if t < |p.types| then Some((|p.types[t].params|, |p.types[t].results|)) else None
  }

  /** A block starts on its parameters alone; the rest of the stack waits in `base`. */
  datatype Entry = Entry(inner: Stack, base: Stack, params: nat, results: nat)

  function Enter(p: Program, bt: BlockType, stack: Stack): Option<Entry> {
    var a := Arity(p, bt);
    if a.None? then None
    else
      var r := Pop(stack, a.value.0);
      if r.None? then None
      else Some(Entry(PushAll(r.value.0, Bottom), r.value.1, a.value.0, a.value.1))
  }

  /** Leaving a block: its own stack is laid over the waiting one. */
  function Leave(o: Outcome, e: Entry): Outcome {
    match o
    case Normal(s) => Normal(s.(stack := Over(s.stack, e.base)))
    case Branching(d, s) =>
      if d > 0 then Branching(d - 1, s)
      else
        var r := Pop(s.stack, e.results);
        if r.None? then Stuck else Normal(s.(stack := PushAll(r.value.0, e.base)))
    case _ => o
  }

  /** The stack for the next round of a loop whose body branched back to it. */
  function Again(s: State, e: Entry): Option<State> {
    var r := Pop(s.stack, e.params);
    if r.None? then None else Some(s.(stack := PushAll(r.value.0, e.base)))
  }

  function Exec(p: Program, c: Code, s: State, fuel: nat): Outcome
    decreases fuel, c, 0
  {
    match c
    case End => Normal(s)
    case Then(i, rest) =>
      var o := Step(p, i, s, fuel);
      if o.Normal? then Exec(p, rest, o.st, fuel) else o
  }

  function Step(p: Program, i: Instr, s: State, fuel: nat): Outcome
    decreases fuel, i, 1
  {
    if IsSimple(i) then SimpleStep(i, s)
    else
      match i
      case Block(bt, body) => StepBlock(p, bt, body, s, fuel)
      case If(bt, thn, els) =>
        if !TopWord(s.stack) then Stuck
        else StepBlock(p, bt, if s.stack.top.n != 0 then thn else els, s.(stack := s.stack.below), fuel)
      case Loop(bt, body) =>
        var e := Enter(p, bt, s.stack);
        if e.None? then Stuck
        else
          var o := Exec(p, body, s.(stack := e.value.inner), fuel);
          if o.Branching? && o.depth == 0 then
            var next := Again(o.st, e.value);
            if next.None? then Stuck
            else if fuel == 0 then OutOfFuel
            else Step(p, i, next.value, fuel - 1)
          else Leave(o, e.value)
      case Br(d) => Branching(d, s)
      case BrIf(d) =>
        if !TopWord(s.stack) then Stuck
        else if s.stack.top.n != 0 then Branching(d, s.(stack := s.stack.below))
        else Normal(s.(stack := s.stack.below))
      case BrTable(ds, d) =>
        if !TopWord(s.stack) then Stuck
        else Branching(if s.stack.top.n < |ds| then ds[s.stack.top.n] else d, s.(stack := s.stack.below))
      case Return => Returning(s)
      case Call(f) => StepCall(p, i, s, fuel)
  }

  function StepBlock(p: Program, bt: BlockType, body: Code, s: State, fuel: nat): Outcome
    decreases fuel, body, 1
  {
    var e := Enter(p, bt, s.stack);
    if e.None? then Stuck
    else Leave(Exec(p, body, s.(stack := e.value.inner), fuel), e.value)
  }

  function StepCall(p: Program, i: Instr, s: State, fuel: nat): Outcome
    requires i.Call?
    decreases fuel, i, 0
  {
    if !ValidFunc(p, i.f) then Stuck
    else
      var args := Pop(s.stack, |FuncTypeOf(p, i.f).params|);
      if args.None? then Stuck
      else if fuel == 0 then OutOfFuel
      else AfterCall(Invoke(p, i.f, args.value.0, s.globals, s.mem, fuel - 1), s.locals, args.value.1)
  }

  function AfterCall(r: CallResult, locals: seq<Val>, rest: Stack): Outcome {
    match r
    case Done(vs, gs, m) => Normal(State(PushAll(vs, rest), locals, gs, m))
    case CallTrap => Trap
    case CallStuck => Stuck
    case CallOutOfFuel => OutOfFuel
  }

  predicate ValidFunc(p: Program, f: nat) {
    f < |p.funcs| && f < |p.code| && p.funcs[f] < |p.types|
  }

  function FuncTypeOf(p: Program, f: nat): FuncType
    requires ValidFunc(p, f)
  {
    p.types[p.funcs[f]]
  }

  function Invoke(p: Program, f: nat, args: seq<Val>, globals: seq<Val>, mem: Memory, fuel: nat): CallResult
    decreases fuel
  {
    if !ValidFunc(p, f) then CallStuck
    else
      var s := State(Bottom, args + ZeroLocals(p.code[f].locals), globals, mem);
      FinishCall(Exec(p, p.code[f].code, s, fuel), |FuncTypeOf(p, f).results|)
  }

  function FinishCall(o: Outcome, results: nat): CallResult {
    match o
    case Branching(d, s) => if d == 0 then Finish(s, results) else CallStuck
    case Normal(s) => Finish(s, results)
    case Returning(s) => Finish(s, results)
    case Trap => CallTrap
    case Stuck => CallStuck
    case OutOfFuel => CallOutOfFuel
  }

  function Finish(s: State, results: nat): CallResult {
    var r := Pop(s.stack, results);
    if r.None? then CallStuck else Done(r.value.0, s.globals, s.mem)
  }

  // ---------- laws of the machine ----------

  /** Pushing values and popping as many gives them back in order. */
  lemma {:induction false} PushedArePopped(vs: seq<Val>, base: Stack)
    ensures Pop(PushAll(vs, base), |vs|) == Some((vs, base))
    decreases |vs|
  {
    if vs != [] {
      var n := |vs| - 1;
      PushedArePopped(vs[..n], base);
      assert vs[..n] + [vs[n]] == vs;
    }
  }

  /** `local.tee` is `local.set` followed by `local.get`. */
  lemma TeeIsSetAndGet(p: Program, l: nat, rest: Code, s: State, fuel: nat)
    ensures Exec(p, Then(LocalTee(l), rest), s, fuel) == Exec(p, Then(LocalSet(l), Then(LocalGet(l), rest)), s, fuel)
  {
    if l < |s.locals| && s.stack.Push? {
      var stored := s.(stack := s.stack.below, locals := s.locals[l := s.stack.top]);
      var tee := s.(locals := s.locals[l := s.stack.top]);
      assert Step(p, LocalGet(l), stored, fuel) == Normal(tee);
      assert Exec(p, Then(LocalGet(l), rest), stored, fuel) == Exec(p, rest, tee, fuel);
    }
  }

  /** A branch table takes the branch at its operand, and its default past the end. */
  lemma TableByCases(p: Program, d: nat, ds: seq<nat>, default: nat, n: u32, base: Stack, s: State, fuel: nat)
    ensures
      var at := (k: u32) => s.(stack := Push(I32Val(k), base));
      && Step(p, BrTable([], default), at(n), fuel) == Step(p, Br(default), s.(stack := base), fuel)
      && Step(p, BrTable([d] + ds, default), at(0), fuel) == Step(p, Br(d), s.(stack := base), fuel)
      && (n > 0 ==> Step(p, BrTable([d] + ds, default), at(n), fuel) == Step(p, BrTable(ds, default), at(n - 1), fuel))
  {
    assert n > 0 && n - 1 < |ds| ==> ([d] + ds)[n] == ds[n - 1];
  }

  /** Branching out of a block with results, or falling out of it, leaves those results over what lay below. */
  lemma BlockGivesItsResult(p: Program, ty: ValType, n: u32, dead: Code, rest: Code, s: State, fuel: nat)
    ensures
      var after := s.(stack := Push(I32Val(n), s.stack));
      && Exec(p, Then(Block(ValueBlock(ty), Then(I32Const(n), Then(Br(0), dead))), rest), s, fuel) == Exec(p, rest, after, fuel)
      && Exec(p, Then(Block(ValueBlock(ty), Then(I32Const(n), End)), rest), s, fuel) == Exec(p, rest, after, fuel)
  {
    var inner := s.(stack := Bottom);
    var one := inner.(stack := Push(I32Val(n), Bottom));
    BodyGivesItsResult(p, n, dead, inner, fuel);
    LeavingKeepsResult(n, s, one);
    RunValueBlock(p, ty, Then(I32Const(n), Then(Br(0), dead)), rest, s, fuel);
    RunValueBlock(p, ty, Then(I32Const(n), End), rest, s, fuel);
    hide *;
  }

  lemma RunValueBlock(p: Program, ty: ValType, body: Code, rest: Code, s: State, fuel: nat)
    ensures
      var o := Leave(Exec(p, body, s.(stack := Bottom), fuel), Entry(Bottom, s.stack, 0, 1));
      Exec(p, Then(Block(ValueBlock(ty), body), rest), s, fuel) == if o.Normal? then Exec(p, rest, o.st, fuel) else o
  {
    hide Leave;
    assert Enter(p, ValueBlock(ty), s.stack) == Some(Entry(Bottom, s.stack, 0, 1));
    assert Step(p, Block(ValueBlock(ty), body), s, fuel) == StepBlock(p, ValueBlock(ty), body, s, fuel);
  }

  lemma BodyGivesItsResult(p: Program, n: u32, dead: Code, inner: State, fuel: nat)
    requires inner.stack == Bottom
    ensures
      var one := inner.(stack := Push(I32Val(n), Bottom));
      && Exec(p, Then(I32Const(n), Then(Br(0), dead)), inner, fuel) == Branching(0, one)
      && Exec(p, Then(I32Const(n), End), inner, fuel) == Normal(one)
  {
    var one := inner.(stack := Push(I32Val(n), Bottom));
    assert Exec(p, Then(Br(0), dead), one, fuel) == Branching(0, one);
    assert Exec(p, End, one, fuel) == Normal(one);
  }

  lemma LeavingKeepsResult(n: u32, s: State, one: State)
    requires one == s.(stack := Push(I32Val(n), Bottom))
    ensures
      var e, after := Entry(Bottom, s.stack, 0, 1), s.(stack := Push(I32Val(n), s.stack));
      Leave(Normal(one), e) == Normal(after) && Leave(Branching(0, one), e) == Normal(after)
  {
    PopOne(I32Val(n), Bottom);
    assert PushAll([I32Val(n)], s.stack) == Push(I32Val(n), s.stack) by { assert [I32Val(n)][..0] == []; }
    assert Over(Bottom, s.stack) == s.stack;
  }

  // ---------- straight-line runs ----------

  /** The state after k simple instructions that do not trap, with the code left to run. */
  function Advance(c: Code, s: State, k: nat): Option<(Code, State)>
    decreases k
  {
    if k == 0 then Some((c, s))
    else if c.End? || !IsSimple(c.head) then None
    else
      var o := SimpleStep(c.head, s);
      if o.Normal? then Advance(c.tail, o.st, k - 1) else None
  }

  lemma {:induction false} RunStraight(p: Program, c: Code, s: State, k: nat, fuel: nat)
    requires Advance(c, s, k).Some?
    ensures Exec(p, c, s, fuel) == Exec(p, Advance(c, s, k).value.0, Advance(c, s, k).value.1, fuel)
    decreases k
  {
    if k > 0 { RunStraight(p, c.tail, SimpleStep(c.head, s).st, k - 1, fuel); }
  }

  function Continue(p: Program, o: Outcome, rest: Code, fuel: nat): Outcome {
    if o.Normal? then Exec(p, rest, o.st, fuel) else o
  }

  /** Leaving a block that has no parameters and no results. */
  function LeaveEmpty(o: Outcome, base: Stack): Outcome { Leave(o, Entry(Bottom, base, 0, 0)) }

  lemma RunIf(p: Program, c: Code, s: State, fuel: nat)
    requires c.Then? && c.head.If? && c.head.bt == EmptyBlock && TopWord(s.stack)
    ensures
      var body := if s.stack.top.n != 0 then c.head.thn else c.head.els;
      Exec(p, c, s, fuel)
      == Continue(p, LeaveEmpty(Exec(p, body, s.(stack := Bottom), fuel), s.stack.below), c.tail, fuel)
  {
    var body := if s.stack.top.n != 0 then c.head.thn else c.head.els;
    var s1 := s.(stack := s.stack.below);
    assert Enter(p, EmptyBlock, s.stack.below) == Some(Entry(Bottom, s.stack.below, 0, 0));
    assert StepBlock(p, EmptyBlock, body, s1, fuel)
        == LeaveEmpty(Exec(p, body, s.(stack := Bottom), fuel), s.stack.below);
    assert Step(p, c.head, s, fuel) == StepBlock(p, EmptyBlock, body, s1, fuel);
  }

  // ---------- more fuel changes nothing ----------

  lemma {:induction false} ExecMoreFuel(p: Program, c: Code, s: State, fuel: nat, more: nat)
    requires fuel <= more && Exec(p, c, s, fuel) != OutOfFuel
    ensures Exec(p, c, s, more) == Exec(p, c, s, fuel)
    decreases fuel, c, 0
  {
    match c
    case End =>
    case Then(i, rest) =>
      StepMoreFuel(p, i, s, fuel, more);
      var o := Step(p, i, s, fuel);
      if o.Normal? { ExecMoreFuel(p, rest, o.st, fuel, more); }
  }

  lemma {:induction false} StepMoreFuel(p: Program, i: Instr, s: State, fuel: nat, more: nat)
    requires fuel <= more && Step(p, i, s, fuel) != OutOfFuel
    ensures Step(p, i, s, more) == Step(p, i, s, fuel)
    decreases fuel, i, 1
  {
    match i
    case Block(bt, body) =>
      BlockMoreFuel(p, bt, body, s, fuel, more);
    case If(bt, thn, els) =>
      if TopWord(s.stack) {
        BlockMoreFuel(p, bt, if s.stack.top.n != 0 then thn else els, s.(stack := s.stack.below), fuel, more);
      }
    case Loop(_, _) => LoopMoreFuel(p, i, s, fuel, more);
    case Call(f) =>
      if ValidFunc(p, f) && Pop(s.stack, |FuncTypeOf(p, f).params|).Some? && fuel > 0 {
        var args := Pop(s.stack, |FuncTypeOf(p, f).params|).value.0;
        InvokeMoreFuel(p, f, args, s.globals, s.mem, fuel - 1, more - 1);
      }
    case _ =>
  }

  lemma {:induction false} BlockMoreFuel(p: Program, bt: BlockType, body: Code, s: State, fuel: nat, more: nat)
    requires fuel <= more && StepBlock(p, bt, body, s, fuel) != OutOfFuel
    ensures StepBlock(p, bt, body, s, more) == StepBlock(p, bt, body, s, fuel)
    decreases fuel, body, 1
  {
    var e := Enter(p, bt, s.stack);
    if e.Some? { ExecMoreFuel(p, body, s.(stack := e.value.inner), fuel, more); }
  }

  lemma {:induction false} LoopMoreFuel(p: Program, i: Instr, s: State, fuel: nat, more: nat)
    requires i.Loop? && fuel <= more && Step(p, i, s, fuel) != OutOfFuel
    ensures Step(p, i, s, more) == Step(p, i, s, fuel)
    decreases fuel, i, 0
  {
    hide Enter, Again, StepBlock, SimpleStep;
    var e := Enter(p, i.bt, s.stack);
    if e.Some? {
      var o := Exec(p, i.body, s.(stack := e.value.inner), fuel);
      ExecMoreFuel(p, i.body, s.(stack := e.value.inner), fuel, more);
      if o.Branching? && o.depth == 0 && fuel > 0 && Again(o.st, e.value).Some? {
        LoopMoreFuel(p, i, Again(o.st, e.value).value, fuel - 1, more - 1);
      }
    }
  }

  /** A finished call has one result, however much fuel it is given. */
  lemma InvokeMoreFuel(p: Program, f: nat, args: seq<Val>, globals: seq<Val>, mem: Memory, fuel: nat, more: nat)
    requires fuel <= more && Invoke(p, f, args, globals, mem, fuel) != CallOutOfFuel
    ensures Invoke(p, f, args, globals, mem, more) == Invoke(p, f, args, globals, mem, fuel)
    decreases fuel
  {
    if ValidFunc(p, f) {
      var s := State(Bottom, args + ZeroLocals(p.code[f].locals), globals, mem);
      ExecMoreFuel(p, p.code[f].code, s, fuel, more);
    }
  }
}
