/**
 Extending a program with more types, functions and globals does not change what
 its own functions do, and its own functions never reach the added globals.
 */
module WasmExtend {
  import opened Words
  import opened Allocator
  import opened WasmMachine

  /** Every index in the code is within the module's own index spaces. */
  predicate ScopedCode(c: Code, types: nat, funcs: nat, globals: nat) {
    match c
    case End => true
    case Then(i, rest) => ScopedInstr(i, types, funcs, globals) && ScopedCode(rest, types, funcs, globals)
  }

  predicate ScopedInstr(i: Instr, types: nat, funcs: nat, globals: nat) {
    match i
    case GlobalGet(g) => g < globals
    case GlobalSet(g) => g < globals
    case Call(f) => f < funcs
    case Block(bt, body) => ScopedType(bt, types) && ScopedCode(body, types, funcs, globals)
    case Loop(bt, body) => ScopedType(bt, types) && ScopedCode(body, types, funcs, globals)
    case If(bt, thn, els) =>
      ScopedType(bt, types) && ScopedCode(thn, types, funcs, globals) && ScopedCode(els, types, funcs, globals)
    case _ => true
  }

  predicate ScopedType(bt: BlockType, types: nat) { bt.TypedBlock? ==> bt.typeIdx < types }

  predicate ScopedProgram(p: Program, globals: nat) {
    && |p.funcs| == |p.code|
    && (forall f :: 0 <= f < |p.funcs| ==> p.funcs[f] < |p.types|)
    && (forall f :: 0 <= f < |p.code| ==> ScopedCode(p.code[f].code, |p.types|, |p.funcs|, globals))
  }

  ghost predicate Extends(q: Program, p: Program) {
    p.types <= q.types && p.funcs <= q.funcs && p.code <= q.code
  }

  function WithGlobals(s: State, extra: seq<Val>): State { s.(globals := s.globals + extra) }

  function LiftOutcome(o: Outcome, extra: seq<Val>): Outcome {
    match o
    case Normal(s) => Normal(WithGlobals(s, extra))
    case Branching(d, s) => Branching(d, WithGlobals(s, extra))
    case Returning(s) => Returning(WithGlobals(s, extra))
    case _ => o
  }

  function LiftResult(r: CallResult, extra: seq<Val>): CallResult {
    if r.Done? then r.(globals := r.globals + extra) else r
  }

  predicate GlobalsCount(o: Outcome, n: nat) {
    o.Normal? || o.Branching? || o.Returning? ==> |o.st.globals| == n
  }

  lemma {:induction false} ExtendedExec(p: Program, q: Program, n: nat, c: Code, s: State, extra: seq<Val>, fuel: nat)
    requires ScopedProgram(p, n) && Extends(q, p) && |s.globals| == n
    requires ScopedCode(c, |p.types|, |p.funcs|, n)
    ensures GlobalsCount(Exec(p, c, s, fuel), n)
    ensures Exec(q, c, WithGlobals(s, extra), fuel) == LiftOutcome(Exec(p, c, s, fuel), extra)
    decreases fuel, c, 0
  {
    match c
    case End =>
    case Then(i, rest) =>
      ExtendedStep(p, q, n, i, s, extra, fuel);
      var o := Step(p, i, s, fuel);
      if o.Normal? { ExtendedExec(p, q, n, rest, o.st, extra, fuel); }
  }

  lemma ExtendedSimple(i: Instr, n: nat, s: State, extra: seq<Val>)
    requires IsSimple(i) && |s.globals| == n
    requires i.GlobalGet? || i.GlobalSet? ==> i.g < n
    ensures GlobalsCount(SimpleStep(i, s), n)
    ensures SimpleStep(i, WithGlobals(s, extra)) == LiftOutcome(SimpleStep(i, s), extra)
  {
    if i.GlobalSet? && s.stack.Push? {
      assert (s.globals + extra)[i.g := s.stack.top] == s.globals[i.g := s.stack.top] + extra;
    }
  }

  lemma {:induction false} ExtendedStep(p: Program, q: Program, n: nat, i: Instr, s: State, extra: seq<Val>, fuel: nat)
    requires ScopedProgram(p, n) && Extends(q, p) && |s.globals| == n
    requires ScopedInstr(i, |p.types|, |p.funcs|, n)
    ensures GlobalsCount(Step(p, i, s, fuel), n)
    ensures Step(q, i, WithGlobals(s, extra), fuel) == LiftOutcome(Step(p, i, s, fuel), extra)
    decreases fuel, i, 1
  {
    if IsSimple(i) {
      ExtendedSimple(i, n, s, extra);
    } else {
      match i
      case Block(bt, body) => ExtendedBlock(p, q, n, bt, body, s, extra, fuel);
      case If(bt, thn, els) =>
        if TopWord(s.stack) {
          ExtendedBlock(p, q, n, bt, if s.stack.top.n != 0 then thn else els, s.(stack := s.stack.below), extra, fuel);
        }
      case Loop(bt, body) => ExtendedLoop(p, q, n, i, s, extra, fuel);
      case Call(f) => ExtendedCall(p, q, n, i, s, extra, fuel);
      case _ =>
    }
  }

  lemma {:induction false} ExtendedBlock(p: Program, q: Program, n: nat, bt: BlockType, body: Code, s: State,
                                         extra: seq<Val>, fuel: nat)
    requires ScopedProgram(p, n) && Extends(q, p) && |s.globals| == n
    requires ScopedType(bt, |p.types|) && ScopedCode(body, |p.types|, |p.funcs|, n)
    ensures GlobalsCount(StepBlock(p, bt, body, s, fuel), n)
    ensures StepBlock(q, bt, body, WithGlobals(s, extra), fuel) == LiftOutcome(StepBlock(p, bt, body, s, fuel), extra)
    decreases fuel, body, 1
  {
    var e := Enter(p, bt, s.stack);
    assert Enter(q, bt, s.stack) == e;
    if e.Some? { ExtendedExec(p, q, n, body, s.(stack := e.value.inner), extra, fuel); }
  }

  lemma {:induction false} ExtendedLoop(p: Program, q: Program, n: nat, i: Instr, s: State, extra: seq<Val>, fuel: nat)
    requires ScopedProgram(p, n) && Extends(q, p) && |s.globals| == n
    requires i.Loop? && ScopedInstr(i, |p.types|, |p.funcs|, n)
    ensures GlobalsCount(Step(p, i, s, fuel), n)
    ensures Step(q, i, WithGlobals(s, extra), fuel) == LiftOutcome(Step(p, i, s, fuel), extra)
    decreases fuel, i, 0
  {
    hide Pop, PushAll, StepBlock, SimpleStep, ScopedProgram;
    var e := Enter(p, i.bt, s.stack);
    assert Enter(q, i.bt, s.stack) == e;
    if e.Some? {
      var inner := s.(stack := e.value.inner);
      ExtendedExec(p, q, n, i.body, inner, extra, fuel);
      var o := Exec(p, i.body, inner, fuel);
      if o.Branching? && o.depth == 0 && fuel > 0 && Again(o.st, e.value).Some? {
        ExtendedLoop(p, q, n, i, Again(o.st, e.value).value, extra, fuel - 1);
      }
    }
  }

  lemma {:induction false} ExtendedCall(p: Program, q: Program, n: nat, i: Instr, s: State, extra: seq<Val>, fuel: nat)
    requires ScopedProgram(p, n) && Extends(q, p) && |s.globals| == n && i.Call? && i.f < |p.funcs|
    ensures GlobalsCount(Step(p, i, s, fuel), n)
    ensures Step(q, i, WithGlobals(s, extra), fuel) == LiftOutcome(Step(p, i, s, fuel), extra)
    decreases fuel, i, 0
  {
    assert ValidFunc(p, i.f) && ValidFunc(q, i.f) && FuncTypeOf(q, i.f) == FuncTypeOf(p, i.f);
    var args := Pop(s.stack, |FuncTypeOf(p, i.f).params|);
    if args.Some? && fuel > 0 {
      ExtendedInvoke(p, q, n, i.f, args.value.0, s.globals, s.mem, extra, fuel - 1);
    }
  }

  /** A function of p behaves in q as in p, whatever values the added globals hold. */
  lemma ExtendedInvoke(p: Program, q: Program, n: nat, f: nat, args: seq<Val>, globals: seq<Val>, mem: Memory,
                       extra: seq<Val>, fuel: nat)
    requires ScopedProgram(p, n) && Extends(q, p) && |globals| == n && f < |p.funcs|
    ensures Invoke(p, f, args, globals, mem, fuel).Done? ==> |Invoke(p, f, args, globals, mem, fuel).globals| == n
    ensures Invoke(q, f, args, globals + extra, mem, fuel) == LiftResult(Invoke(p, f, args, globals, mem, fuel), extra)
    decreases fuel
  {
    var s := State(Bottom, args + ZeroLocals(p.code[f].locals), globals, mem);
    ExtendedExec(p, q, n, p.code[f].code, s, extra, fuel);
  }
}
