/**
 The C glue: the allocator both templates share, the solve export, and the native
 CLI run with its growable buffer, stream budgets and per-call heap reset.
 */
module NativeCli {
  import opened Words
  import opened Allocator
  import opened InputStream
  import opened StdinBuffer
  import EmittedSolve

  // ---------- the outside world ----------

  datatype SolverOut = SolverTrap | SolverDone(mem: Memory, outPtr: u32, outLen: u32)

  /** `x07_solve_v2`: memory, arena, arena capacity, input pointer and length. */
  type Solver = (Memory, u32, u32, u32, u32) -> SolverOut

  datatype WriteOutcome = Accepted | FailedAfter(k: nat)

  /** An output stream whose writes succeed or fail as `outcomes` says; an exhausted list means success. */
  class OutStream {
    var outcomes: seq<WriteOutcome>
    var written: seq<byte>
    ghost var failed: bool

    constructor (plan: seq<WriteOutcome>)
      ensures outcomes == plan && written == [] && !failed
    {
      outcomes, written, failed := plan, [], false;
    }

    method BlockingWriteAndFlush(bytes: seq<byte>) returns (ok: bool)
      modifies this
      ensures ok ==> written == old(written) + bytes && failed == old(failed)
      ensures !ok ==> failed && old(written) <= written <= old(written) + bytes
      ensures old(outcomes) == [] ==> ok && outcomes == []
    {
      if outcomes == [] {
        written := written + bytes;
        return true;
      }
      var o := outcomes[0];
      outcomes := outcomes[1..];
      if o.Accepted? {
        written := written + bytes;
        return true;
      }
      failed := true;
      written := written + bytes[..if o.k <= |bytes| then o.k else |bytes|];
      return false;
    }
  }

  const DIAG_PREFIX := Ascii("x07-diag-code: ")
  const DIAG_SUFFIX := Ascii("\n")
  const DIAG_READ_FAILED := Ascii("X07WASM_COMPONENT_RUN_STDIN_READ_FAILED")
  const DIAG_STDIN_BUDGET := Ascii("X07WASM_BUDGET_EXCEEDED_CLI_STDIN")
  const DIAG_STDOUT_BUDGET := Ascii("X07WASM_BUDGET_EXCEEDED_CLI_STDOUT")

  function DiagLine(code: seq<byte>): seq<byte> { DIAG_PREFIX + code + DIAG_SUFFIX }

  /** The line a failed run reports: its input passed the budget or could not be read, or its output was not delivered. */
  function FailureLine(input: seq<ReadResult>, maxStdin: nat): seq<byte> {
    Ascii("x07-diag-code: ")
    + (if |Leading(input)| > maxStdin then Ascii("X07WASM_BUDGET_EXCEEDED_CLI_STDIN")
       else if EndsInFailure(input) then Ascii("X07WASM_COMPONENT_RUN_STDIN_READ_FAILED")
       else Ascii("X07WASM_BUDGET_EXCEEDED_CLI_STDOUT"))
    + Ascii("\n")
  }

  lemma FailureLineIs(input: seq<ReadResult>, maxStdin: nat)
    ensures
      FailureLine(input, maxStdin) ==
        match Receive([], input, maxStdin)
        case OverBudget => DiagLine(DIAG_STDIN_BUDGET)
        case FailedRead => DiagLine(DIAG_READ_FAILED)
        case Input(_) => DiagLine(DIAG_STDOUT_BUDGET)
  {
    hide Receive, Leading, EndsInFailure;
    ReceivedIsItsChunks([], input, maxStdin);
  }

  // ---------- the glue ----------

  /** What the build fixes: the heap base, the arena, and the limits. */
  datatype Config = Config(heapBase: u32, arenaCap: u32, maxOutput: nat, maxStdin: nat, maxStdout: nat, maxStderr: nat)

  datatype RunResult = TrappedRun | Returned(ok: bool)

  /** The arena and heap pointer once the arena exists. */
  function WithArena(c: Config, arena: u32, heap: u32): (u32, u32) {
    if arena != 0 then (arena, heap) else EmittedSolve.Fresh(c.heapBase, heap, 8, c.arenaCap)
  }

  /** The read loop of a run that starts with this heap and memory. */
  function Reads(c: Config, heap: u32, mem: Memory, input: seq<ReadResult>): Reading {
    ReadAll(c.heapBase, Heap(heap, mem), EMPTY, 0, input, c.maxStdin)
  }

  /** The solver's answer in a run whose reading finished as o. */
  function Solves(c: Config, arena: u32, o: Reading, solver: Solver): SolverOut
    requires o.Ended?
  {
    solver(o.heap.mem, arena, c.arenaCap, o.buf.ptr, o.buf.len)
  }

  predicate OutputAccepted(c: Config, arena: u32, s: SolverOut)
    requires s.SolverDone?
  {
    EmittedSolve.Accepts(arena, c.arenaCap, c.maxOutput % TWO32, s.outPtr, s.outLen)
  }

  predicate OverStdout(c: Config, s: SolverOut)
    requires s.SolverDone?
  {
    s.outLen > c.maxStdout % TWO32
  }

  /** The outcome and the output of a run that returns. */
  ghost predicate RunMeaning(c: Config, arena: u32, heap: u32, mem: Memory, input: seq<ReadResult>, solver: Solver,
                             ok: bool, stdout: seq<byte>, stdoutFailed: bool)
  {
    var o := Reads(c, heap, mem, input);
    && o.Ended?
    && if o.end != Finished then !ok && stdout == []
       else
         var s := Solves(c, arena, o, solver);
         && s.SolverDone?
         && if OverStdout(c, s) then !ok && stdout == []
            else
              && OutputAccepted(c, arena, s)
              && (ok ==> IsOutput(stdout, s)) && (!ok ==> stdoutFailed)
  }

  ghost predicate IsOutput(stdout: seq<byte>, s: SolverOut)
    requires s.SolverDone?
  {
    if s.outLen == 0 then stdout == []
    else s.outPtr + s.outLen <= |s.mem| && stdout == s.mem[s.outPtr..s.outPtr + s.outLen]
  }

  /** Memory after a run that returns. */
  function MemAfter(c: Config, arena: u32, heap: u32, mem: Memory, input: seq<ReadResult>, solver: Solver): Memory {
    var o := Reads(c, heap, mem, input);
    if o.ReadTrap? then mem
    else if o.end != Finished then o.heap.mem
    else
      var s := Solves(c, arena, o, solver);
      if s.SolverTrap? then o.heap.mem else s.mem
  }

  /** The only reasons for a trap once the arena is there. */
  ghost predicate MayTrap(c: Config, arena: u32, heap: u32, mem: Memory, input: seq<ReadResult>, solver: Solver) {
    var o := Reads(c, heap, mem, input);
    || o.ReadTrap?
    || (o.end == Finished
        && var s := Solves(c, arena, o, solver);
           s.SolverTrap? || !OutputAccepted(c, arena, s) || s.outPtr + s.outLen > |s.mem|)
  }

  class Buf {
    var ptr: u32
    var len: u32
    var cap: u32

    constructor ()
      ensures Value() == EMPTY
    {
      ptr, len, cap := 0, 0, 0;
    }

    ghost function Value(): Buffer
      reads this
    {
      Buffer(ptr, len, cap)
    }
  }

  class NativeGlue {
    const c: Config
    var heapPtr: u32
    var arena: u32
    var mem: Memory

    constructor (config: Config, initial: Memory)
      ensures c == config && heapPtr == 0 && arena == 0 && mem == initial
    {
      c, heapPtr, arena, mem := config, 0, 0, initial;
    }

    ghost function HeapNow(): Heap
      reads this
    {
      Heap(heapPtr, mem)
    }

    method CopyBytes(dst: u32, src: u32, n: u32) returns (ok: bool)
      modifies this`mem
      ensures ok <==> CopyFrom(old(mem), dst, src, 0, n).Some?
      ensures ok ==> Some(mem) == CopyFrom(old(mem), dst, src, 0, n)
    {
      var i: u32 := 0;
      while i < n
        invariant i <= n && CopyFrom(mem, dst, src, i, n) == CopyFrom(old(mem), dst, src, 0, n)
      {
        var d, s := Add32(dst, i), Add32(src, i);
        if d >= |mem| || s >= |mem| { return false; }
        mem := mem[d := mem[s]];
        i := i + 1;
      }
      ok := true;
    }

    /** `cabi_realloc`; None is a trap. */
    method CabiRealloc(q: Request) returns (r: Option<u32>)
      modifies this`heapPtr, this`mem
      ensures
        match Realloc(c.heapBase, old(heapPtr), old(mem), q)
        case Trapped => r.None?
        case Allocated(p, h, m) => r == Some(p) && heapPtr == h && mem == m
    {
      if q.newSize == 0 { return Some(q.align); }
      if q.align == 0 { return None; }
      if heapPtr == 0 { heapPtr := c.heapBase; }
      var aligned := AlignUp(heapPtr, q.align);
      heapPtr := Add32(aligned, q.newSize);
      if q.ptr != 0 && q.oldSize > 0 {
        var ok := CopyBytes(aligned, q.ptr, Kept(q));
        if !ok { return None; }
      }
      r := Some(aligned);
    }

    /** The arena is allocated on first use. */
    method PrepareArena() returns (ok: bool)
      modifies this`heapPtr, this`mem, this`arena
      ensures mem == old(mem)
      ensures ok <==> WithArena(c, old(arena), old(heapPtr)).0 != 0
      ensures (arena, heapPtr) == WithArena(c, old(arena), old(heapPtr))
    {
      ok := true;
      if arena == 0 {
        var q := Request(0, 0, 8, c.arenaCap);
        EmittedSolve.FreshIsRealloc(c.heapBase, heapPtr, 8, c.arenaCap, mem);
        var p := CabiRealloc(q);
        arena := p.value;
        ok := arena != 0;
      }
    }

    /** The solve export of the solve template: the accepted output, or a trap. */
    method Solve(inPtr: u32, inLen: u32, solver: Solver) returns (r: Option<(u32, u32)>)
      modifies this`heapPtr, this`mem, this`arena
      ensures
        var (a, h) := WithArena(c, old(arena), old(heapPtr));
        var out := solver(old(mem), a, c.arenaCap, inPtr, inLen);
        if a != 0 && out.SolverDone? && OutputAccepted(c, a, out)
        then r == Some((out.outPtr, out.outLen)) && mem == out.mem && arena == a && heapPtr == h
        else r.None?
    {
      var ok := PrepareArena();
      if !ok { return None; }
      var out := solver(mem, arena, c.arenaCap, inPtr, inLen);
      if out.SolverTrap? { return None; }
      mem := out.mem;
      if out.outLen > c.maxOutput % TWO32 { return None; }
      var outEnd := Add32(out.outPtr, out.outLen);
      var arenaEnd := Add32(arena, c.arenaCap);
      if out.outPtr < arena || outEnd > arenaEnd { return None; }
      r := Some((out.outPtr, out.outLen));
    }

    // ---------- the buffer ----------

    method GrownCap(cap: u32, need: u32) returns (newCap: u32)
      ensures newCap == Capacity(cap, need)
    {
      newCap := if cap != 0 then cap else 4096;
      while newCap < need
        invariant newCap > 0 && Grow(newCap, need) == Capacity(cap, need)
        decreases need - newCap
      {
        if newCap > (TWO32 - 1) / 2 { newCap := need; } else { newCap := newCap * 2; }
      }
    }

    method BufReserve(b: Buf, add: u32) returns (ok: bool)
      modifies this`heapPtr, this`mem, b
      ensures
        var r := Reserve(c.heapBase, old(HeapNow()), old(b.Value()), add);
        if ok then r == Some((HeapNow(), b.Value())) else r.None?
    {
      hide Realloc, Capacity;
      if add > TWO32 - 1 - b.len { return false; }
      var need := b.len + add;
      if need <= b.cap { return true; }
      var newCap := GrownCap(b.cap, need);
      var p := CabiRealloc(Request(b.ptr, b.cap, 1, newCap));
      if p.None? || p.value == 0 { return false; }
      b.ptr := p.value;
      b.cap := newCap;
      ok := true;
    }

    /** The byte loop of the append, on addresses that may wrap. */
    method AppendBytes(ptr: u32, len: u32, src: u32, n: u32) returns (ok: bool)
      requires len + n < TWO32
      modifies this`mem
      ensures ok <==> CopyFrom(old(mem), Add32(ptr, len), src, 0, n).Some?
      ensures ok ==> Some(mem) == CopyFrom(old(mem), Add32(ptr, len), src, 0, n)
    {
      var i: u32 := 0;
      while i < n
        invariant i <= n
        invariant CopyFrom(mem, Add32(ptr, len), src, i, n) == CopyFrom(old(mem), Add32(ptr, len), src, 0, n)
      {
        var d, a := Add32(ptr, len + i), Add32(src, i);
        if d >= |mem| || a >= |mem| { return false; }
        mem := mem[d := mem[a]];
        i := i + 1;
      }
      ok := true;
    }

    method BufPushBytes(b: Buf, src: u32, n: u32) returns (ok: bool)
      modifies this`heapPtr, this`mem, b
      ensures
        var r := Push(c.heapBase, old(HeapNow()), old(b.Value()), src, n);
        if ok then r == Some((HeapNow(), b.Value())) else r.None?
    {
      hide CopyFrom, Capacity, Realloc;
      ok := BufReserve(b, n);
      if !ok { return; }
      ok := AppendBytes(b.ptr, b.len, src, n);
      if !ok { return; }
      b.len := b.len + n;
    }

    // ---------- writing ----------

    /** Writes the n bytes at p if the budget allows; None is a trap. */
    method WriteLimited(out: OutStream, p: nat, n: u32, budget: nat, written: nat) returns (r: Option<bool>, total: nat)
      modifies out
      ensures r.None? <==> written + n <= budget && p + n > |mem|
      ensures r == Some(true) ==>
        p + n <= |mem| && out.written == old(out.written) + mem[p..p + n] && total == written + n
        && out.failed == old(out.failed)
      ensures r == Some(false) ==> total == written && (out.failed || written + n > budget)
    {
      total := written;
      if written + n > budget { return Some(false), total; }
      if p + n > |mem| { return None, total; }
      var ok := out.BlockingWriteAndFlush(mem[p..p + n]);
      if ok { total := written + n; }
      r := Some(ok);
    }

    /** One piece of a diagnostic line, unless an earlier one failed or the budget is spent. */
    method WriteDiagPiece(err: OutStream, piece: seq<byte>, written: nat, ok: bool) returns (ok': bool, total: nat)
      requires written <= c.maxStderr
      modifies err
      ensures old(err.written) <= err.written && total <= c.maxStderr
      ensures |err.written| + written <= |old(err.written)| + c.maxStderr
      ensures ok' ==> ok && total == written + |piece| && err.written == old(err.written) + piece
      ensures !ok ==> err.written == old(err.written)
      ensures old(err.outcomes) == [] ==> err.outcomes == [] && (ok' <==> ok && written + |piece| <= c.maxStderr)
    {
      ok', total := false, written;
      if !ok || written + |piece| > c.maxStderr { return; }
      ok' := err.BlockingWriteAndFlush(piece);
      if ok' { total := written + |piece|; }
    }

    /** A diagnostic line on the error stream, within its budget. */
    method WriteStderrDiag(err: OutStream, code: seq<byte>)
      modifies err
      ensures old(err.written) <= err.written
      ensures |err.written| <= |old(err.written)| + c.maxStderr
      ensures old(err.outcomes) == [] && |DiagLine(code)| <= c.maxStderr ==>
        err.written == old(err.written) + DiagLine(code)
    {
      ghost var w0 := err.written;
      var ok, total := WriteDiagPiece(err, DIAG_PREFIX, 0, true);
      ok, total := WriteDiagPiece(err, code, total, ok);
      ok, total := WriteDiagPiece(err, DIAG_SUFFIX, total, ok);
      assert w0 + DIAG_PREFIX + code + DIAG_SUFFIX == w0 + DiagLine(code);
    }

    /** The stdout loop writes the output in pieces of at most 4096 bytes; None is a trap.
        Each piece is inside memory, so the piece pointer passes 2^32 only after the last one. */
    method WriteStdout(out: OutStream, ptr: u32, len: u32) returns (r: Option<bool>)
      requires len <= c.maxStdout
      modifies out
      ensures r == Some(true) ==>
        out.failed == old(out.failed)
        && (len == 0 ==> out.written == old(out.written))
        && (len > 0 ==> ptr + len <= |mem| && out.written == old(out.written) + mem[ptr..ptr + len])
      ensures r == Some(false) ==> out.failed
      ensures r.None? ==> ptr + len > |mem|
    {
      var total: nat := 0;
      var p: nat := ptr;
      var remaining: u32 := len;
      while remaining > 0
        invariant remaining <= len && p + remaining == ptr + len && total + remaining == len
        invariant out.failed == old(out.failed)
        invariant p == ptr ==> out.written == old(out.written)
        invariant p > ptr ==> p <= |mem| && out.written == old(out.written) + mem[ptr..p]
      {
        var n: u32 := if remaining < 4096 then remaining else 4096;
        var ok, now := WriteLimited(out, p, n, c.maxStdout, total);
        if ok != Some(true) { return ok; }
        assert ptr <= p && p + n <= |mem|;
        assert p > ptr ==> mem[ptr..p + n] == mem[ptr..p] + mem[p..p + n];
        total := now;
        p := p + n;
        remaining := remaining - n;
      }
      r := Some(true);
    }

    // ---------- reading ----------

    method LowerChunk(bytes: List8) returns (r: Option<u32>)
      modifies this`heapPtr, this`mem
      ensures
        var low := Lower(c.heapBase, old(HeapNow()), bytes);
        if r.Some? then low == Some((r.value, HeapNow())) else low.None?
    {
      r := CabiRealloc(Request(0, 0, 1, |bytes|));
      if bytes != [] {
        if r.None? || r.value + |bytes| > |mem| { return None; }
        mem := mem[..r.value] + bytes + mem[r.value + |bytes|..];
      }
    }

    /** The read loop; None is a trap. */
    method ReadStdin(input: seq<ReadResult>, b: Buf) returns (r: Option<ReadEnd>)
      requires b.Value() == EMPTY
      modifies this`heapPtr, this`mem, b
      ensures
        var o := Reads(c, old(heapPtr), old(mem), input);
        if r.Some? then o == Ended(r.value, HeapNow(), b.Value()) else o.ReadTrap?
    {
      hide Lower, Push;
      ghost var goal := Reads(c, heapPtr, mem, input);
      var readTotal: nat := 0;
      var k := 0;
      while k < |input|
        invariant 0 <= k <= |input|
        invariant goal == ReadAll(c.heapBase, HeapNow(), b.Value(), readTotal, input[k..], c.maxStdin)
      {
        var read := input[k];
        assert input[k..][0] == read && input[k..][1..] == input[k + 1..];
        if read.ReadClosed? { return Some(Finished); }
        if read.ReadFailed? { return Some(BrokenRead); }
        var chunk := LowerChunk(read.bytes);
        if chunk.None? { return None; }
        if read.bytes == [] { return Some(Finished); }
        if readTotal + |read.bytes| > c.maxStdin { return Some(TooMuch); }
        var ok := BufPushBytes(b, chunk.value, |read.bytes|);
        if !ok { return None; }
        readTotal := readTotal + |read.bytes|;
        k := k + 1;
      }
      r := Some(Finished);
    }

    // ---------- the run ----------

    /** `exports_wasi_cli_run_run`: read stdin, solve, write stdout, reset the heap pointer. */
    method Run(input: seq<ReadResult>, solver: Solver, out: OutStream, err: OutStream) returns (r: RunResult)
      requires out != err && !out.failed && out.written == []
      modifies this`heapPtr, this`mem, this`arena, out, err
      ensures
        var (a, h) := WithArena(c, old(arena), old(heapPtr));
        match r
        case TrappedRun => a == 0 || MayTrap(c, a, h, old(mem), input, solver)
        case Returned(ok) =>
          && a != 0 && arena == a && heapPtr == h && mem == MemAfter(c, a, h, old(mem), input, solver)
          && RunMeaning(c, a, h, old(mem), input, solver, ok, out.written, out.failed)
      ensures |err.written| <= |old(err.written)| + c.maxStderr
      ensures r == Returned(true) ==> err.written == old(err.written)
      ensures r == Returned(false) && old(err.outcomes) == [] ==>
        var line := FailureLine(input, c.maxStdin);
        |line| <= c.maxStderr ==> err.written == old(err.written) + line
    {
      hide Receive, ReadAll, EmittedSolve.Fresh, DiagLine, FailureLine;
      FailureLineIs(input, c.maxStdin);
      var ready := PrepareArena();
      if !ready { return TrappedRun; }
      var callMark := heapPtr;
      EndsAsReceived(c.heapBase, Heap(heapPtr, mem), EMPTY, [], input, c.maxStdin);
      var b := new Buf();
      var end := ReadStdin(input, b);
      if end.None? { return TrappedRun; }
      if end != Some(Finished) {
        WriteStderrDiag(err, if end == Some(BrokenRead) then DIAG_READ_FAILED else DIAG_STDIN_BUDGET);
        heapPtr := callMark;
        return Returned(false);
      }
      var o := solver(mem, arena, c.arenaCap, b.ptr, b.len);
      if o.SolverTrap? { return TrappedRun; }
      mem := o.mem;
      if o.outLen > c.maxOutput % TWO32 { return TrappedRun; }
      if o.outLen > c.maxStdout % TWO32 {
        WriteStderrDiag(err, DIAG_STDOUT_BUDGET);
        heapPtr := callMark;
        return Returned(false);
      }
      var outEnd, arenaEnd := Add32(o.outPtr, o.outLen), Add32(arena, c.arenaCap);
      if o.outPtr < arena || outEnd > arenaEnd { return TrappedRun; }
      assert o.outLen <= c.maxStdout;
      var ok := WriteStdout(out, o.outPtr, o.outLen);
      if ok.None? { return TrappedRun; }
      if ok == Some(false) { WriteStderrDiag(err, DIAG_STDOUT_BUDGET); }
      heapPtr := callMark;
      r := Returned(ok.value);
    }

    /** Any sequence of runs on one instance; it ends at the first trap. `mems` are the memories before each run. */
    method RunAll(inputs: seq<seq<ReadResult>>, solvers: seq<Solver>, plans: seq<seq<WriteOutcome>>, err: OutStream)
      returns (results: seq<RunResult>, stdouts: seq<seq<byte>>, ghost mems: seq<Memory>, ghost broken: seq<bool>)
      requires |solvers| == |plans| == |inputs|
      modifies this`heapPtr, this`mem, this`arena, err
      ensures |results| == |stdouts| == |broken| <= |inputs| && |mems| == |results| + 1 && mems[0] == old(mem)
      ensures |results| < |inputs| ==> results != [] && results[|results| - 1].TrappedRun?
      ensures
        var (a, h) := WithArena(c, old(arena), old(heapPtr));
        && (forall k :: 0 <= k < |results| && results[k].Returned? ==>
              RunMeaning(c, a, h, mems[k], inputs[k], solvers[k], results[k].ok, stdouts[k], broken[k]))
        && (forall k :: 0 <= k < |results| && results[k].Returned? ==>
              mems[k + 1] == MemAfter(c, a, h, mems[k], inputs[k], solvers[k]))
        && (forall k :: 0 <= k < |results| - 1 ==> results[k].Returned?)
        && (results != [] && results[|results| - 1].Returned? ==> arena == a && heapPtr == h)
    {
      hide RunMeaning, MayTrap, MemAfter, Receive, DiagLine, EmittedSolve.Fresh;
      results, stdouts, mems, broken := [], [], [mem], [];
      ghost var at := WithArena(c, arena, heapPtr);
      for i := 0 to |inputs|
        invariant |results| == |stdouts| == |broken| == i && |mems| == i + 1
        invariant mems[0] == old(mem) && mems[i] == mem
        invariant WithArena(c, arena, heapPtr) == at && (i > 0 ==> arena == at.0 && heapPtr == at.1)
        invariant forall k :: 0 <= k < i ==> results[k].Returned?
        invariant forall k :: 0 <= k < i ==>
          RunMeaning(c, at.0, at.1, mems[k], inputs[k], solvers[k], results[k].ok, stdouts[k], broken[k])
        invariant forall k :: 0 <= k < i ==> mems[k + 1] == MemAfter(c, at.0, at.1, mems[k], inputs[k], solvers[k])
      {
        var out := new OutStream(plans[i]);
        var r := Run(inputs[i], solvers[i], out, err);
        results, stdouts := results + [r], stdouts + [out.written];
        mems, broken := mems + [mem], broken + [out.failed];
        if r.TrappedRun? { return; }
      }
    }
  }

  // ---------- what a run means ----------

  /** o is what the solver gave when called on exactly the bytes `given`, held at ptr in m. */
  ghost predicate Called(solver: Solver, s: SolverOut, m: Memory, arena: u32, cap: u32, ptr: u32, given: seq<byte>) {
    && |given| < TWO32 && s == solver(m, arena, cap, ptr, |given|)
    && (given != [] ==> ptr + |given| <= |m| && m[ptr..ptr + |given|] == given)
  }

  /**
   In every memory short of the full 4 GiB, a run that returned and read its input to the end called
   the solver on exactly the chunks read, within the budget; if it succeeded, its output is the solver's.
   */
  lemma RunIsSolve(c: Config, arena: u32, heap: u32, mem: Memory, input: seq<ReadResult>, solver: Solver,
                   ok: bool, stdout: seq<byte>, broken: bool)
    requires RunMeaning(c, arena, heap, mem, input, solver, ok, stdout, broken)
    requires StartsWell(c.heapBase, Heap(heap, mem)) && |mem| <= TWO32 - PAGE
    ensures ok ==> |Leading(input)| <= c.maxStdin && !EndsInFailure(input)
    ensures |Leading(input)| <= c.maxStdin && !EndsInFailure(input) ==>
      var o := Reads(c, heap, mem, input);
      var s := Solves(c, arena, o, solver);
      && Called(solver, s, o.heap.mem, arena, c.arenaCap, o.buf.ptr, Leading(input))
      && (ok ==> IsOutput(stdout, s))
  {
    hide ReadAll, Receive, Leading, EndsInFailure;
    BufferHoldsInput(c.heapBase, Heap(heap, mem), input, c.maxStdin);
    EndsAsReceived(c.heapBase, Heap(heap, mem), EMPTY, [], input, c.maxStdin);
    ReceivedIsItsChunks([], input, c.maxStdin);
    assert [] + Leading(input) == Leading(input);
  }

  /**
   With a working output stream a returned run succeeds exactly when its input is within the budget and read
   to its end, and the solver's output is within the output budget.
   */
  lemma RunSucceedsIff(c: Config, arena: u32, heap: u32, mem: Memory, input: seq<ReadResult>, solver: Solver,
                       ok: bool, stdout: seq<byte>, broken: bool)
    requires RunMeaning(c, arena, heap, mem, input, solver, ok, stdout, broken)
    ensures
      var o := Reads(c, heap, mem, input);
      var wasRead := |Leading(input)| <= c.maxStdin && !EndsInFailure(input);
      && (wasRead <==> o.end == Finished)
      && (!broken ==> (ok <==> wasRead && Solves(c, arena, o, solver).outLen <= c.maxStdout % TWO32))
      && (ok ==>
            var s := Solves(c, arena, o, solver);
            && wasRead && s.outLen <= c.maxStdout % TWO32 && s.outLen <= c.maxOutput % TWO32
            && arena <= s.outPtr && (s.outPtr + s.outLen) % TWO32 <= (arena + c.arenaCap) % TWO32)
  {
    hide ReadAll, Receive, Leading, EndsInFailure;
    EndsAsReceived(c.heapBase, Heap(heap, mem), EMPTY, [], input, c.maxStdin);
    ReceivedIsItsChunks([], input, c.maxStdin);
  }

  /** With that much memory above the heap, a run traps only for its solver or its report. */
  lemma RunHasRoom(c: Config, arena: u32, heap: u32, mem: Memory, input: seq<ReadResult>, solver: Solver, most: nat)
    requires MayTrap(c, arena, heap, mem, input, solver)
    requires StartsWell(c.heapBase, Heap(heap, mem)) && |mem| <= TWO32 - PAGE && SmallChunks(input, most)
    requires HeapStart(c.heapBase, heap) + 5 * c.maxStdin + 8192 + most <= |mem|
    ensures
      var o := Reads(c, heap, mem, input);
      o.Ended? && o.end == Finished
      && var s := Solves(c, arena, o, solver);
         s.SolverTrap? || !OutputAccepted(c, arena, s) || s.outPtr + s.outLen > |s.mem|
  {
    hide ReadAll;
    ReadsWithoutTrap(c.heapBase, Heap(heap, mem), input, c.maxStdin, most);
  }

  /** An arena that ends below 2^32 leaves a heap that starts well. */
  lemma ArenaStartsWell(c: Config, arena: u32, heap: u32, mem: Memory)
    requires StartsWell(c.heapBase, Heap(heap, mem))
    requires arena == 0 ==> NoWrap(c.heapBase, heap, Request(0, 0, 8, c.arenaCap))
    ensures StartsWell(c.heapBase, Heap(WithArena(c, arena, heap).1, mem))
  {
    if arena == 0 && c.arenaCap > 0 {
      assert IsPow2(8) by { assert Pow2(3) == 8; }
      AlignUpMeaning(HeapStart(c.heapBase, heap), 8);
    }
  }
}
