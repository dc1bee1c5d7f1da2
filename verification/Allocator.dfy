/**
 The bump allocator of the canonical-ABI glue. `Realloc` is its specification;
 the C implementation, the emitted WebAssembly and the native CLI all refine it.
 */
module Allocator {
  import opened Words

  type Memory = m: seq<byte> | |m| <= TWO32 witness []

  datatype AllocResult = Trapped | Allocated(ptr: u32, heap: u32, mem: Memory)

  datatype Request = Request(ptr: u32, oldSize: u32, align: u32, newSize: u32)

  datatype Region = Region(ptr: nat, size: nat)

  /** Forward byte copy of positions i..n, on wrapping addresses; None is a trap. */
  function CopyFrom(mem: Memory, dst: u32, src: u32, i: u32, n: u32): Option<Memory>
    decreases n - i
  {
    if i >= n then Some(mem)
    else
      var d, s := Add32(dst, i), Add32(src, i);
      if d < |mem| && s < |mem| then CopyFrom(mem[d := mem[s]], dst, src, i + 1, n)
      else None
  }

  function HeapStart(heapBase: u32, heap: u32): u32 {
    if heap == 0 then heapBase else heap
  }

  /** How many bytes of an old block survive. */
  function Kept(q: Request): u32 {
    if q.newSize < q.oldSize then q.newSize else q.oldSize
  }

  predicate Copies(q: Request) { q.ptr != 0 && q.oldSize != 0 }

  /** Give q the block at `aligned`, copying the old bytes if there are any. */
  function PlaceAt(aligned: u32, mem: Memory, q: Request): AllocResult {
    var copied := if Copies(q) then CopyFrom(mem, aligned, q.ptr, 0, Kept(q)) else Some(mem);
    if copied.None? then Trapped
    else Allocated(aligned, Add32(aligned, q.newSize), copied.value)
  }

  function Realloc(heapBase: u32, heap: u32, mem: Memory, q: Request): AllocResult {
    if q.newSize == 0 then Allocated(q.align, heap, mem)
    else if q.align == 0 then Trapped
    else PlaceAt(AlignUp(HeapStart(heapBase, heap), q.align), mem, q)
  }

  // ---------- what a copy does ----------

  ghost predicate SameOutside(mem: Memory, m: Memory, lo: int, hi: int) {
    |m| == |mem| && forall a :: 0 <= a < |mem| && (a < lo || hi <= a) ==> m[a] == mem[a]
  }

  /** A copy that does not wrap traps exactly when it leaves memory; otherwise it writes only its target. */
  lemma {:induction false} CopyWritesTarget(mem: Memory, dst: u32, src: u32, i: u32, n: u32)
    requires i <= n && dst + n <= TWO32 && src + n <= TWO32
    ensures CopyFrom(mem, dst, src, i, n).None? <==> i < n && (dst + n > |mem| || src + n > |mem|)
    ensures CopyFrom(mem, dst, src, i, n).Some? ==>
      SameOutside(mem, CopyFrom(mem, dst, src, i, n).value, dst + i, dst + n)
    decreases n - i
  {
    if i < n && dst + i < |mem| && src + i < |mem| {
      CopyWritesTarget(mem[dst + i := mem[src + i]], dst, src, i + 1, n);
    }
  }

  /** A copy between disjoint places in memory moves the source bytes. */
  lemma {:induction false} CopyMovesBytes(mem: Memory, dst: u32, src: u32, i: u32, n: u32)
    requires i <= n && (src + n <= dst || dst + n <= src) && dst + n <= |mem| && src + n <= |mem|
    ensures CopyFrom(mem, dst, src, i, n).Some?
    ensures
      var m := CopyFrom(mem, dst, src, i, n).value;
      |m| == |mem| && m[dst + i..dst + n] == mem[src + i..src + n]
    decreases n - i
  {
    hide CopyFrom;
    CopyUnfolds(mem, dst, src, i, n);
    if i < n {
      var mem1: Memory := mem[dst + i := mem[src + i]];
      CopyMovesBytes(mem1, dst, src, i + 1, n);
      CopyWritesTarget(mem1, dst, src, i + 1, n);
      OneByteMore(mem, CopyFrom(mem1, dst, src, i + 1, n).value, dst + i, src + i, n - i);
    }
  }

  lemma CopyUnfolds(mem: Memory, dst: u32, src: u32, i: u32, n: u32)
    requires i <= n && dst + n <= |mem| && src + n <= |mem|
    ensures CopyFrom(mem, dst, src, i, n)
         == if i == n then Some(mem) else CopyFrom(mem[dst + i := mem[src + i]], dst, src, i + 1, n)
  {
  }

  lemma OneByteMore(mem: Memory, m: Memory, dst: nat, src: nat, n: nat)
    requires 0 < n && dst + n <= |mem| == |m| && src + n <= |mem| && (src + n <= dst || dst + n <= src)
    requires m[dst] == mem[src] && m[dst + 1..dst + n] == mem[dst := mem[src]][src + 1..src + n]
    ensures m[dst..dst + n] == mem[src..src + n]
  {
    assert mem[dst := mem[src]][src + 1..src + n] == mem[src + 1..src + n];
    assert m[dst..dst + n] == [m[dst]] + m[dst + 1..dst + n];
  }

  /** In a memory that is not full, a copy that leaves it traps before its addresses could wrap. */
  lemma {:induction false} CopyLeaves(mem: Memory, dst: u32, src: u32, i: u32, n: u32)
    requires i < n && |mem| < TWO32 && dst + i <= |mem| && src + i <= |mem|
    requires dst + n > |mem| || src + n > |mem|
    ensures CopyFrom(mem, dst, src, i, n).None?
    decreases n - i
  {
    if dst + i < |mem| && src + i < |mem| { CopyLeaves(mem[dst + i := mem[src + i]], dst, src, i + 1, n); }
  }

  /** In a full memory no copy traps: the addresses wrap. */
  lemma {:induction false} FullCopyWraps(mem: Memory, dst: u32, src: u32, i: u32, n: u32)
    requires |mem| == TWO32
    ensures CopyFrom(mem, dst, src, i, n).Some? && |CopyFrom(mem, dst, src, i, n).value| == TWO32
    decreases if i < n then n - i else 0
  {
    if i < n { FullCopyWraps(mem[Add32(dst, i) := mem[Add32(src, i)]], dst, src, i + 1, n); }
  }

  // ---------- blocks ----------

  predicate Disjoint(a: Region, b: Region) {
    a.ptr + a.size <= b.ptr || b.ptr + b.size <= a.ptr
  }

  /** Blocks lie between heapBase and the heap pointer and do not overlap. */
  ghost predicate BlocksOk(heapBase: u32, heap: u32, blocks: seq<Region>) {
    && (heap == 0 ==> blocks == [])
    && (heap != 0 ==> heapBase <= heap)
    && (forall b :: b in blocks ==> heapBase <= b.ptr && 0 < b.size && b.ptr + b.size <= heap)
    && (forall i, j :: 0 <= i < j < |blocks| ==> Disjoint(blocks[i], blocks[j]))
  }

  /** The sums the allocator forms for q stay below 2^32. */
  predicate NoWrap(heapBase: u32, heap: u32, q: Request) {
    && HeapStart(heapBase, heap) + q.align - 1 < TWO32
    && AlignUp(HeapStart(heapBase, heap), q.align) + q.newSize < TWO32
  }

  /** The bytes of mem in block b. */
  ghost predicate SameBytes(b: Region, mem: Memory, mem': Memory) {
    |mem| <= |mem'| && forall a :: b.ptr <= a < b.ptr + b.size && a < |mem| ==> mem'[a] == mem[a]
  }

  ghost predicate GoodRequest(heapBase: u32, heap: u32, blocks: seq<Region>, q: Request) {
    && q.newSize > 0 && IsPow2(q.align) && NoWrap(heapBase, heap, q)
    && (q.ptr != 0 && q.oldSize != 0 ==> Region(q.ptr, q.oldSize) in blocks)
  }

  /** One request traps exactly when its copy leaves memory; else the new block is aligned, fresh and filled from the old one. */
  lemma AllocStep(heapBase: u32, heap: u32, mem: Memory, blocks: seq<Region>, q: Request)
    requires BlocksOk(heapBase, heap, blocks) && GoodRequest(heapBase, heap, blocks, q)
    ensures Realloc(heapBase, heap, mem, q).Trapped? <==>
      Copies(q) && AlignUp(HeapStart(heapBase, heap), q.align) + Kept(q) > |mem|
    ensures Realloc(heapBase, heap, mem, q).Allocated? ==>
      StepOk(heapBase, heap, mem, q, Realloc(heapBase, heap, mem, q))
  {
    var start := HeapStart(heapBase, heap);
    AlignUpMeaning(start, q.align);
    var aligned := AlignUp(start, q.align);
    assert Copies(q) ==> q.ptr + q.oldSize <= start;
    PlacedBlock(aligned, mem, q);
  }

  lemma PlacedBlock(aligned: u32, mem: Memory, q: Request)
    requires q.newSize > 0 && aligned + q.newSize < TWO32 && (Copies(q) ==> q.ptr + q.oldSize <= aligned)
    ensures PlaceAt(aligned, mem, q).Trapped? <==> Copies(q) && aligned + Kept(q) > |mem|
    ensures PlaceAt(aligned, mem, q).Allocated? ==>
      var r := PlaceAt(aligned, mem, q);
      r.ptr == aligned && r.heap == aligned + q.newSize && Filled(mem, q, r)
  {
    if Copies(q) {
      CopyWritesTarget(mem, aligned, q.ptr, 0, Kept(q));
      if aligned + Kept(q) <= |mem| {
        CopyMovesBytes(mem, aligned, q.ptr, 0, Kept(q));
      }
    }
  }

  /** The new block starts with the surviving old bytes, and nothing else changed. */
  ghost predicate Filled(mem: Memory, q: Request, r: AllocResult)
    requires r.Allocated?
  {
    && SameOutside(mem, r.mem, r.ptr, r.ptr + q.newSize)
    && (Copies(q) ==>
      && r.ptr + Kept(q) <= |mem| && q.ptr + Kept(q) <= |mem|
      && r.mem[r.ptr..r.ptr + Kept(q)] == mem[q.ptr..q.ptr + Kept(q)])
  }

  ghost predicate StepOk(heapBase: u32, heap: u32, mem: Memory, q: Request, r: AllocResult)
    requires q.align > 0 && r.Allocated?
  {
    && r.ptr % q.align == 0
    && HeapStart(heapBase, heap) <= r.ptr
    && r.heap == r.ptr + q.newSize
    && Filled(mem, q, r)
  }

  /** The block of a step keeps the layout, and the older blocks keep their bytes. */
  lemma BlockAdded(heapBase: u32, heap: u32, mem: Memory, blocks: seq<Region>, q: Request, r: AllocResult)
    requires BlocksOk(heapBase, heap, blocks) && q.align > 0 && q.newSize > 0
    requires r.Allocated? && StepOk(heapBase, heap, mem, q, r)
    ensures BlocksOk(heapBase, r.heap, blocks + [Region(r.ptr, q.newSize)]) && heap < r.heap
    ensures forall b :: b in blocks ==> SameBytes(b, mem, r.mem)
  {
    var all := blocks + [Region(r.ptr, q.newSize)];
    forall i, j | 0 <= i < j < |all| ensures Disjoint(all[i], all[j]) {
      assert all[i] == blocks[i] && blocks[i] in blocks;
      assert j < |blocks| ==> all[j] == blocks[j];
    }
  }

  // ---------- every sequence of requests ----------

  datatype HeapState = HeapState(heap: u32, mem: Memory, blocks: seq<Region>)

  function AfterAlloc(s: HeapState, q: Request, r: AllocResult): HeapState
    requires r.Allocated?
  {
    HeapState(r.heap, r.mem, s.blocks + [Region(r.ptr, q.newSize)])
  }

  /** The state after a sequence of requests; None once a request traps. */
  function RunAllocs(heapBase: u32, s: HeapState, qs: seq<Request>): Option<HeapState>
    decreases |qs|
  {
    if qs == [] then Some(s)
    else
      var r := Realloc(heapBase, s.heap, s.mem, qs[0]);
      if r.Trapped? then None else RunAllocs(heapBase, AfterAlloc(s, qs[0], r), qs[1..])
  }

  ghost predicate GoodRun(heapBase: u32, s: HeapState, qs: seq<Request>)
    decreases |qs|
  {
    qs != [] ==>
      && GoodRequest(heapBase, s.heap, s.blocks, qs[0])
      && var r := Realloc(heapBase, s.heap, s.mem, qs[0]);
         r.Allocated? ==> GoodRun(heapBase, AfterAlloc(s, qs[0], r), qs[1..])
  }

  ghost predicate Aligned(b: Region, q: Request) {
    q.align > 0 && b.ptr % q.align == 0 && b.size == q.newSize
  }

  /** Any run keeps every block it had, unmoved and unchanged, and adds one aligned block per request. */
  lemma {:induction false} AllocatorRuns(heapBase: u32, s: HeapState, qs: seq<Request>)
    requires BlocksOk(heapBase, s.heap, s.blocks) && GoodRun(heapBase, s, qs)
    ensures RunAllocs(heapBase, s, qs).Some? ==>
      var t := RunAllocs(heapBase, s, qs).value;
      && BlocksOk(heapBase, t.heap, t.blocks) && s.heap <= t.heap
      && |t.blocks| == |s.blocks| + |qs| && s.blocks <= t.blocks
      && (forall b :: b in s.blocks ==> SameBytes(b, s.mem, t.mem))
      && (forall j :: 0 <= j < |qs| ==> Aligned(t.blocks[|s.blocks|..][j], qs[j]))
    decreases |qs|
  {
    hide Realloc, BlocksOk, NoWrap, SameBytes, Filled, HeapStart;
    if qs != [] {
      var r := Realloc(heapBase, s.heap, s.mem, qs[0]);
      AllocStep(heapBase, s.heap, s.mem, s.blocks, qs[0]);
      if r.Allocated? {
        BlockAdded(heapBase, s.heap, s.mem, s.blocks, qs[0], r);
        var s1 := AfterAlloc(s, qs[0], r);
        AllocatorRuns(heapBase, s1, qs[1..]);
        if RunAllocs(heapBase, s1, qs[1..]).Some? {
          RunsChain(s, qs, r, RunAllocs(heapBase, s1, qs[1..]).value);
        }
      }
    } else {
      SameAsItself(s);
    }
  }

  lemma SameAsItself(s: HeapState)
    ensures forall b :: b in s.blocks ==> SameBytes(b, s.mem, s.mem)
  {
  }

  lemma RunsChain(s: HeapState, qs: seq<Request>, r: AllocResult, t: HeapState)
    requires qs != [] && r.Allocated? && AfterAlloc(s, qs[0], r).blocks <= t.blocks
    requires |t.blocks| == |s.blocks| + |qs|
    requires Aligned(Region(r.ptr, qs[0].newSize), qs[0])
    requires forall b :: b in s.blocks ==> SameBytes(b, s.mem, r.mem)
    requires forall b :: b in s.blocks + [Region(r.ptr, qs[0].newSize)] ==> SameBytes(b, r.mem, t.mem)
    requires forall j :: 0 <= j < |qs[1..]| ==> Aligned(t.blocks[|s.blocks| + 1..][j], qs[1..][j])
    ensures forall b :: b in s.blocks ==> SameBytes(b, s.mem, t.mem)
    ensures forall j :: 0 <= j < |qs| ==> Aligned(t.blocks[|s.blocks|..][j], qs[j])
  {
    forall b | b in s.blocks ensures SameBytes(b, s.mem, t.mem) {
      assert b in s.blocks + [Region(r.ptr, qs[0].newSize)];
    }
    forall j | 0 <= j < |qs| ensures Aligned(t.blocks[|s.blocks|..][j], qs[j]) {
      if j > 0 {
        assert qs[1..][j - 1] == qs[j];
        assert t.blocks[|s.blocks|..][j] == t.blocks[|s.blocks| + 1..][j - 1];
      } else {
        assert t.blocks[|s.blocks|] == AfterAlloc(s, qs[0], r).blocks[|s.blocks|];
      }
    }
  }

  /**
   Without the bound on sums this fails for every heap: a request that wraps succeeds and moves the
   heap pointer back, and the next block overlaps the first exactly when it reaches the first's start.
   */
  lemma WrapLosesTheHeap(heapBase: u32, heap: u32, mem: Memory, size: u32, size2: u32)
    requires 0 < heapBase <= heap && size > 0 && size2 > 0 && heap + size >= TWO32
    ensures
      var r := Realloc(heapBase, heap, mem, Request(0, 0, 1, size));
      && r.Allocated? && r.ptr == heap && r.heap < heap
      && var r2 := Realloc(heapBase, r.heap, r.mem, Request(0, 0, 1, size2));
         && r2.Allocated? && r2.ptr <= heap
         && (!Disjoint(Region(r.ptr, size), Region(r2.ptr, size2)) <==> r2.ptr + size2 > heap)
  {
  }
}
