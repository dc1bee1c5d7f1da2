/**
 The host's side of `x07_solve_v2`: laying out return slot, input and arena in
 64-bit arithmetic, making the call and checking the reported output.
 */
module HostLayout {
  import opened Words
  import opened Allocator
  import EmittedSolve
  import WasmMachine

  /** Rounding up as the host computes it; `!(align - 1)` is the 64-bit complement. */
  function AlignUp64(x: nat, align: nat): nat
    requires align <= TWO64
  {
    if align <= 1 then x else BitAnd(x + (align - 1), TWO64 - 1 - (align - 1))
  }

  lemma Pow2Of64()
    ensures Pow2(64) == TWO64
  {
    Pow2Of32();
    assert Pow2(40) == 0x100 * TWO32;
    assert Pow2(48) == 0x100 * Pow2(40);
    assert Pow2(56) == 0x100 * Pow2(48);
  }

  lemma AlignUp64By8(x: nat)
    requires x + 7 < TWO64
    ensures IsRoundUp(x, 8, AlignUp64(x, 8))
  {
    Pow2Of64();
    assert IsPow2(8) by { assert Pow2(3) == 8; }
    MaskRoundsDown(x + 7, 8, 64);
  }

  datatype Layout = Layout(heapBase: u32, dataEnd: u32, retPtr: nat, inputPtr: nat, arenaPtr: nat)

  function Base(heapBase: u32, dataEnd: u32): u32 { if heapBase >= dataEnd then heapBase else dataEnd }

  /** Rust slices are shorter than 2^63 bytes. */
  const MAX_SLICE: nat := 0x7FFF_FFFF_FFFF_FFFF

  function Place(heapBase: u32, dataEnd: u32, inputLen: nat): Layout {
    var retPtr := AlignUp64(Base(heapBase, dataEnd), 8);
    var inputPtr := AlignUp64(retPtr + 8, 8);
    Layout(heapBase, dataEnd, retPtr, inputPtr, AlignUp64(inputPtr + inputLen, 8))
  }

  /** The regions are 8-aligned, in order, apart, above the base, and waste little. */
  lemma LayoutApart(heapBase: u32, dataEnd: u32, inputLen: nat)
    requires inputLen <= MAX_SLICE
    ensures
      var l := Place(heapBase, dataEnd, inputLen);
      && l.retPtr % 8 == 0 && l.inputPtr % 8 == 0 && l.arenaPtr % 8 == 0
      && l.heapBase == heapBase && l.dataEnd == dataEnd && heapBase <= l.retPtr && dataEnd <= l.retPtr
      && l.retPtr + 8 == l.inputPtr && l.inputPtr + inputLen <= l.arenaPtr
      && l.arenaPtr <= Base(heapBase, dataEnd) + inputLen + 22
  {
    hide AlignUp64;
    var l := Place(heapBase, dataEnd, inputLen);
    AlignUp64By8(Base(heapBase, dataEnd));
    AlignUp64By8(l.retPtr + 8);
    AlignUp64By8(l.inputPtr + inputLen);
  }

  // ---------- the call ----------

  datatype HostError =
    | MemoryTooSmall(need: nat, have: nat) | PointerOverflow | CallFailed | ShortMemory
    | OutputTooLarge(len: u32) | OutsideArena | OutOfBounds

  datatype CallOutcome = Ok(layout: Layout, output: seq<byte>) | Err(error: HostError)

  /** A guest call: memory and the five arguments to the memory afterwards; None if it fails. */
  type GuestFunc = (Memory, u32, u32, u32, u32, u32) -> Option<Memory>

  /** The host's 64-bit test of the reported output. */
  predicate Accepts64(arena: u32, cap: u32, maxOut: u32, outPtr: u32, outLen: u32) {
    outLen <= maxOut && arena <= outPtr && outPtr + outLen <= arena + cap
  }

  /** The host and the emitted wrapper accept the same reports when neither sum reaches 2^32. */
  lemma HostAndWrapperAgree(arena: u32, cap: u32, maxOut: u32, outPtr: u32, outLen: u32)
    requires arena + cap < TWO32 && outPtr + outLen < TWO32
    ensures Accepts64(arena, cap, maxOut, outPtr, outLen)
        <==> EmittedSolve.Accepts(arena, cap, maxOut, outPtr, outLen)
  {
  }

  /** They differ exactly on reports whose wrapped comparison disagrees; the host never accepts one outside the arena. */
  lemma WrapperAcceptsMore(arena: u32, cap: u32, maxOut: u32, outPtr: u32, outLen: u32)
    requires arena + cap < TWO32
    ensures EmittedSolve.Accepts(arena, cap, maxOut, outPtr, outLen) && !Accepts64(arena, cap, maxOut, outPtr, outLen)
        <==> outLen <= maxOut && arena <= outPtr && outPtr + outLen >= TWO32 && outPtr + outLen - TWO32 <= arena + cap
  {
  }

  class HostMemory {
    var bytes: Memory

    constructor (m: Memory)
      ensures bytes == m
    {
      bytes := m;
    }

    method Write(at: nat, data: seq<byte>) returns (ok: bool)
      modifies this
      ensures ok <==> at + |data| <= |old(bytes)|
      ensures bytes == if ok then old(bytes)[..at] + data + old(bytes)[at + |data|..] else old(bytes)
    {
      ok := at + |data| <= |bytes|;
      if ok { bytes := bytes[..at] + data + bytes[at + |data|..]; }
    }
  }

  /** Memory as the guest finds it: the return slot cleared and the input in place. */
  function Prepared(m: Memory, l: Layout, input: seq<byte>): Memory
    requires l.retPtr + 8 == l.inputPtr && l.inputPtr + |input| <= |m|
  {
    m[..l.retPtr] + [0, 0, 0, 0, 0, 0, 0, 0] + input + m[l.inputPtr + |input|..]
  }

  lemma WritesPrepare(m: Memory, l: Layout, input: seq<byte>)
    requires l.retPtr + 8 == l.inputPtr && l.inputPtr + |input| <= |m|
    ensures
      var cleared := m[..l.retPtr] + [0, 0, 0, 0, 0, 0, 0, 0] + m[l.retPtr + 8..];
      cleared[..l.inputPtr] + input + cleared[l.inputPtr + |input|..] == Prepared(m, l, input)
  {
    var cleared := m[..l.retPtr] + [0, 0, 0, 0, 0, 0, 0, 0] + m[l.retPtr + 8..];
    assert cleared[..l.inputPtr] == m[..l.retPtr] + [0, 0, 0, 0, 0, 0, 0, 0];
    assert cleared[l.inputPtr + |input|..] == m[l.inputPtr + |input|..];
  }

  /** Byte by byte: eight zeros, the input after them, everything else as before. */
  lemma PreparedBytes(m: Memory, l: Layout, input: seq<byte>, a: nat)
    requires l.retPtr + 8 == l.inputPtr && l.inputPtr + |input| <= |m| && a < |m|
    ensures |Prepared(m, l, input)| == |m|
    ensures Prepared(m, l, input)[a] ==
      if l.retPtr <= a < l.retPtr + 8 then 0
      else if l.inputPtr <= a < l.inputPtr + |input| then input[a - l.inputPtr]
      else m[a]
  {
  }

  /** The four bytes at a as a little-endian number. */
  function LittleEndian(m: Memory, a: nat): u32
    requires a + 4 <= |m|
  {
    (m[a] as int) + 0x100 * (m[a + 1] as int) + 0x1_0000 * (m[a + 2] as int) + 0x100_0000 * (m[a + 3] as int)
  }

  /** The host's verdict on the memory m the guest left, with its report in the return slot. */
  ghost predicate Verdict(l: Layout, m: Memory, arenaCap: u32, maxOut: u32, r: CallOutcome) {
    if l.retPtr + 8 > |m| then r == Err(ShortMemory)
    else
      var outPtr, outLen := LittleEndian(m, l.retPtr), LittleEndian(m, l.retPtr + 4);
      var inArena := l.arenaPtr <= outPtr && outPtr + outLen <= l.arenaPtr + arenaCap;
      && (r.Ok? <==> outLen <= maxOut && inArena && outPtr + outLen <= |m|)
      && (r.Ok? ==> r.layout == l && |r.output| == outLen
                    && forall k :: 0 <= k < outLen ==> r.output[k] == m[outPtr + k])
      && (outLen > maxOut ==> r == Err(OutputTooLarge(outLen)))
      && (outLen <= maxOut && !inArena ==> r == Err(OutsideArena))
      && (outLen <= maxOut && inArena && outPtr + outLen > |m| ==> r == Err(ShortMemory))
  }

  /** An output is handed back exactly when the 64-bit test accepts a report that memory still holds. */
  lemma VerdictIsAccepts64(l: Layout, m: Memory, arenaCap: u32, maxOut: u32, r: CallOutcome)
    requires Verdict(l, m, arenaCap, maxOut, r) && l.retPtr + 8 <= |m| && l.arenaPtr < TWO32
    ensures
      var outPtr, outLen := LittleEndian(m, l.retPtr), LittleEndian(m, l.retPtr + 4);
      r.Ok? <==> Accepts64(l.arenaPtr, arenaCap, maxOut, outPtr, outLen) && outPtr + outLen <= |m|
  {
    hide LittleEndian;
  }

  lemma WordIsLittleEndian(m: Memory, a: nat)
    requires a + 4 <= |m|
    ensures WasmMachine.WordAt(m, a) == LittleEndian(m, a)
  {
  }

  lemma NoReport(l: Layout, m: Memory, arenaCap: u32, maxOut: u32)
    requires l.retPtr + 8 > |m|
    ensures Verdict(l, m, arenaCap, maxOut, Err(ShortMemory))
  {
  }

  lemma VerdictOnReport(l: Layout, m: Memory, arenaCap: u32, maxOut: u32)
    requires l.retPtr + 8 <= |m|
    ensures
      var outPtr, outLen := WasmMachine.WordAt(m, l.retPtr), WasmMachine.WordAt(m, l.retPtr + 4);
      Verdict(l, m, arenaCap, maxOut,
              if outLen > maxOut then Err(OutputTooLarge(outLen))
              else if outPtr < l.arenaPtr || outPtr + outLen > l.arenaPtr + arenaCap then Err(OutsideArena)
              else if outPtr + outLen > |m| then Err(ShortMemory)
              else Ok(l, m[outPtr..outPtr + outLen]))
  {
    hide LittleEndian, WasmMachine.WordAt;
    WordIsLittleEndian(m, l.retPtr);
    WordIsLittleEndian(m, l.retPtr + 4);
  }

  /** The call on memory m, for a layout that fits. */
  ghost predicate CallMeaning(m: Memory, func: GuestFunc, l: Layout, input: seq<byte>, arenaCap: u32, maxOut: u32,
                              after: Memory, r: CallOutcome)
  {
    && l.retPtr + 8 == l.inputPtr && l.inputPtr + |input| <= l.arenaPtr <= |m| && l.arenaPtr < TWO32
    && var left := func(Prepared(m, l, input), l.retPtr, l.arenaPtr, arenaCap, l.inputPtr, |input|);
       if left.None? then r == Err(CallFailed) else after == left.value && Verdict(l, after, arenaCap, maxOut, r)
  }

  /** Too small a memory and too high an arena are refused; otherwise the guest runs on the prepared
      memory and its report is judged. The late bounds check never fails. */
  method CallSolveV2(memory: HostMemory, func: GuestFunc, heapBase: u32, dataEnd: u32, input: seq<byte>,
                     arenaCap: u32, maxOut: u32) returns (r: CallOutcome)
    requires |input| <= MAX_SLICE
    modifies memory
    ensures
      var l := Place(heapBase, dataEnd, |input|);
      if l.arenaPtr + arenaCap > |old(memory.bytes)| then
        r == Err(MemoryTooSmall(l.arenaPtr + arenaCap, |old(memory.bytes)|)) && memory.bytes == old(memory.bytes)
      else if l.arenaPtr >= TWO32 then r == Err(PointerOverflow)
      else CallMeaning(old(memory.bytes), func, l, input, arenaCap, maxOut, memory.bytes, r)
  {
    hide AlignUp64, Place, Base, WasmMachine.WordAt, Verdict;
    var memSize := |memory.bytes|;
    var l := Place(heapBase, dataEnd, |input|);
    LayoutApart(heapBase, dataEnd, |input|);
    var arenaEnd := l.arenaPtr + arenaCap;
    if arenaEnd > memSize { return Err(MemoryTooSmall(arenaEnd, memSize)); }
    if l.retPtr >= TWO32 || l.inputPtr >= TWO32 || l.arenaPtr >= TWO32 { return Err(PointerOverflow); }
    ghost var before := memory.bytes;
    var ok := memory.Write(l.retPtr, [0, 0, 0, 0, 0, 0, 0, 0]);
    ok := memory.Write(l.inputPtr, input);
    assert memory.bytes == Prepared(before, l, input) by { WritesPrepare(before, l, input); }
    hide Prepared;
    var done := func(memory.bytes, l.retPtr, l.arenaPtr, arenaCap, l.inputPtr, |input| % TWO32);
    if done.None? { return Err(CallFailed); }
    memory.bytes := done.value;
    if l.retPtr + 8 > |memory.bytes| {
      NoReport(l, memory.bytes, arenaCap, maxOut);
      return Err(ShortMemory);
    }
    VerdictOnReport(l, memory.bytes, arenaCap, maxOut);
    var outPtr := WasmMachine.WordAt(memory.bytes, l.retPtr);
    var outLen := WasmMachine.WordAt(memory.bytes, l.retPtr + 4);
    if outLen > maxOut { return Err(OutputTooLarge(outLen)); }
    if outPtr < l.arenaPtr || outPtr + outLen > l.arenaPtr + arenaCap { return Err(OutsideArena); }
    if outPtr + outLen > memSize { return Err(OutOfBounds); }
    if outPtr + outLen > |memory.bytes| { return Err(ShortMemory); }
    r := Ok(l, memory.bytes[outPtr..outPtr + outLen]);
  }
}
