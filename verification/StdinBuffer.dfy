/**
 The growable buffer that the native glue reads standard input into, on values: what
 each step does to the heap, and when the buffer ends up holding exactly the bytes read.
 */
module StdinBuffer {
  import opened Words
  import opened Allocator
  import opened InputStream

  /** The heap pointer and memory. */
  datatype Heap = Heap(top: u32, mem: Memory)

  datatype Buffer = Buffer(ptr: u32, len: u32, cap: u32)

  const EMPTY := Buffer(0, 0, 0)

  // ---------- capacity ----------

  function FirstCap(cap: u32): u32 { if cap != 0 then cap else 4096 }

  /** Doubling until `need` fits, or `need` itself past half the range. */
  function Grow(c: u32, need: u32): u32
    requires c > 0
    decreases if c < need then need - c else 0
  {
    if c >= need then c else if c > (TWO32 - 1) / 2 then need else Grow(c * 2, need)
  }

  function Capacity(cap: u32, need: u32): u32 { Grow(FirstCap(cap), need) }

  ghost predicate IsDoubling(n: nat, start: nat) { exists k: nat :: n == start * Pow2(k) }

  lemma DoubledStart(n: nat, start: nat)
    requires IsDoubling(n, start * 2)
    ensures IsDoubling(n, start)
  {
    var k: nat :| n == start * 2 * Pow2(k);
    assert n == start * Pow2(k + 1);
  }

  /** The capacity fits, is a doubling of the first one or the need itself, and wastes less than half. */
  lemma {:induction false} GrowFits(c: u32, need: u32)
    requires c > 0
    ensures Grow(c, need) >= need && Grow(c, need) >= c
    ensures Grow(c, need) == c || Grow(c, need) < 2 * need
    ensures Grow(c, need) == need || IsDoubling(Grow(c, need), c)
    ensures c < need && c <= (TWO32 - 1) / 2 ==> Grow(c, need) >= 2 * c
    decreases if c < need then need - c else 0
  {
    if c >= need {
      assert c == c * Pow2(0);
    } else if c <= (TWO32 - 1) / 2 {
      GrowFits(c * 2, need);
      if IsDoubling(Grow(c * 2, need), c * 2) { DoubledStart(Grow(c * 2, need), c); }
    }
  }

  lemma CapacityFits(cap: u32, need: u32)
    requires need > cap
    ensures Capacity(cap, need) >= need && Capacity(cap, need) > cap
    ensures Capacity(cap, need) < 2 * need || (cap == 0 && Capacity(cap, need) == 4096)
    ensures Capacity(cap, need) == need || IsDoubling(Capacity(cap, need), FirstCap(cap))
    ensures cap <= (TWO32 - 1) / 2 ==> Capacity(cap, need) >= 2 * cap
  {
    GrowFits(FirstCap(cap), need);
  }

  // ---------- the steps ----------

  /** `x07_buf_reserve`; None is a trap. */
  function Reserve(heapBase: u32, h: Heap, b: Buffer, add: u32): Option<(Heap, Buffer)> {
    if add > TWO32 - 1 - b.len then None
    else if b.len + add <= b.cap then Some((h, b))
    else
      var newCap := Capacity(b.cap, b.len + add);
      match Realloc(heapBase, h.top, h.mem, Request(b.ptr, b.cap, 1, newCap))
      case Trapped => None
      case Allocated(p, top, m) => if p == 0 then None else Some((Heap(top, m), Buffer(p, b.len, newCap)))
  }

  /** `x07_buf_push_bytes`: the n bytes at src are appended. */
  function Push(heapBase: u32, h: Heap, b: Buffer, src: u32, n: u32): (r: Option<(Heap, Buffer)>)
    ensures r.Some? ==> r.value.1.len == b.len + n
  {
    var room := Reserve(heapBase, h, b, n);
    if room.None? then None
    else
      var (h1, b1) := room.value;
      var m := CopyFrom(h1.mem, Add32(b1.ptr, b1.len), src, 0, n);
      if m.None? then None else Some((h1.(mem := m.value), b1.(len := b1.len + n)))
  }

  function Written(mem: Memory, at: nat, bytes: seq<byte>): Memory
    requires at + |bytes| <= |mem|
  {
    mem[..at] + bytes + mem[at + |bytes|..]
  }

  /** The host lowers a chunk: it calls `cabi_realloc` and writes the bytes there. */
  function Lower(heapBase: u32, h: Heap, bytes: List8): Option<(u32, Heap)> {
    match Realloc(heapBase, h.top, h.mem, Request(0, 0, 1, |bytes|))
    case Trapped => None
    case Allocated(p, top, m) =>
      if bytes == [] then Some((p, Heap(top, m)))
      else if p + |bytes| > |m| then None
      else Some((p, Heap(top, Written(m, p, bytes))))
  }

  datatype ReadEnd = Finished | BrokenRead | TooMuch

  datatype Reading = ReadTrap | Ended(end: ReadEnd, heap: Heap, buf: Buffer)

  /** The read loop, with `total` bytes read so far. */
  function ReadAll(heapBase: u32, h: Heap, b: Buffer, total: nat, input: seq<ReadResult>, budget: nat): Reading
    decreases |input|
  {
    if input == [] then Ended(Finished, h, b)
    else
      match input[0]
      case ReadClosed => Ended(Finished, h, b)
      case ReadFailed => Ended(BrokenRead, h, b)
      case Chunk(bytes) =>
        var lowered := Lower(heapBase, h, bytes);
        if lowered.None? then ReadTrap
        else if bytes == [] then Ended(Finished, lowered.value.1, b)
        else if total + |bytes| > budget then Ended(TooMuch, lowered.value.1, b)
        else
          var pushed := Push(heapBase, lowered.value.1, b, lowered.value.0, |bytes|);
          if pushed.None? then ReadTrap
          else ReadAll(heapBase, pushed.value.0, pushed.value.1, total + |bytes|, input[1..], budget)
  }

  function EndMeaning(e: ReadEnd, got: seq<byte>): Received {
    match e
    case Finished => Input(got)
    case BrokenRead => FailedRead
    case TooMuch => OverBudget
  }

  /** However the loop ends, it ends as the stream and the budget say. */
  lemma {:induction false} EndsAsReceived(heapBase: u32, h: Heap, b: Buffer, got: seq<byte>, input: seq<ReadResult>, budget: nat)
    requires b.len == |got|
    ensures
      var o := ReadAll(heapBase, h, b, |got|, input, budget);
      o.Ended? ==>
        match Receive(got, input, budget)
        case Input(bytes) => o.end == Finished && o.buf.len == |bytes|
        case FailedRead => o.end == BrokenRead
        case OverBudget => o.end == TooMuch
    decreases |input|
  {
    hide Lower, Push;
    if input != [] && input[0].Chunk? {
      var bytes := input[0].bytes;
      var lowered := Lower(heapBase, h, bytes);
      if lowered.Some? && bytes != [] && |got| + |bytes| <= budget {
        var pushed := Push(heapBase, lowered.value.1, b, lowered.value.0, |bytes|);
        if pushed.Some? {
          PushedLength(heapBase, lowered.value.1, b, lowered.value.0, |bytes|);
          EndsAsReceived(heapBase, pushed.value.0, pushed.value.1, got + bytes, input[1..], budget);
        }
      }
    }
  }

  lemma PushedLength(heapBase: u32, h: Heap, b: Buffer, src: u32, n: u32)
    ensures Push(heapBase, h, b, src, n).Some? ==> Push(heapBase, h, b, src, n).value.1.len == b.len + n
  {
  }

  // ---------- where the buffer lies ----------

  const PAGE: nat := 0x1_0000

  ghost predicate Holds(b: Buffer, mem: Memory, content: seq<byte>) {
    && b.len == |content| && b.len <= b.cap
    && (content != [] ==> b.ptr + b.len <= |mem| && mem[b.ptr..b.ptr + b.len] == content)
  }

  /**
   The buffer is below the heap pointer; or its capacity reached past 2^32 and the heap pointer
   wrapped, and then what memory still has room for cannot bring the heap back up to the buffer.
   */
  ghost predicate Placed(heapBase: u32, h: Heap, b: Buffer) {
    && heapBase > 0 && |h.mem| <= TWO32 - PAGE
    && if b.cap == 0 then h.top == 0 || heapBase <= h.top
       else if b.ptr + b.cap < TWO32 then heapBase <= b.ptr && b.ptr + b.cap <= h.top
       else HeapStart(heapBase, h.top) + (|h.mem| - b.ptr - b.len) <= b.ptr
  }

  lemma LowerPlaces(heapBase: u32, h: Heap, bytes: List8)
    requires heapBase > 0 && bytes != [] && |h.mem| < TWO32
    ensures
      var p := HeapStart(heapBase, h.top);
      Lower(heapBase, h, bytes) ==
        if p + |bytes| > |h.mem| then None else Some((p, Heap(p + |bytes|, Written(h.mem, p, bytes))))
  {
    assert AlignUp(HeapStart(heapBase, h.top), 1) == HeapStart(heapBase, h.top);
  }

  lemma WrittenKeeps(mem: Memory, at: nat, bytes: seq<byte>, lo: nat, hi: nat)
    requires at + |bytes| <= |mem| && lo <= hi <= |mem| && (hi <= at || at + |bytes| <= lo)
    ensures |Written(mem, at, bytes)| == |mem|
    ensures Written(mem, at, bytes)[lo..hi] == mem[lo..hi] && Written(mem, at, bytes)[at..at + |bytes|] == bytes
  {
  }

  /** The append in place, from bytes that lie apart from the buffer. */
  lemma AppendHolds(b: Buffer, mem: Memory, content: seq<byte>, src: u32, bytes: List8)
    requires bytes != [] && Holds(b, mem, content) && b.len + |bytes| <= b.cap
    requires src + |bytes| <= |mem| && mem[src..src + |bytes|] == bytes
    requires src + |bytes| <= b.ptr || b.ptr + b.len + |bytes| <= src
    requires b.ptr + b.len + |bytes| <= |mem|
    ensures
      var m := CopyFrom(mem, b.ptr + b.len, src, 0, |bytes|);
      m.Some? && |m.value| == |mem| && Holds(b.(len := b.len + |bytes|), m.value, content + bytes)
  {
    hide CopyFrom;
    var dst: u32 := b.ptr + b.len;
    var n: u32 := |bytes|;
    CopyMovesBytes(mem, dst, src, 0, n);
    CopyWritesTarget(mem, dst, src, 0, n);
    var m := CopyFrom(mem, dst, src, 0, n).value;
    assert m[dst..dst + n] == bytes;
    Joined(mem, m, b.ptr, b.len, n);
    assert content == [] ==> content + bytes == bytes;
  }

  lemma Joined(mem: Memory, m: Memory, at: nat, len: nat, n: nat)
    requires at + len + n <= |mem| && SameOutside(mem, m, at + len, at + len + n)
    ensures m[at..at + len + n] == mem[at..at + len] + m[at + len..at + len + n]
  {
    assert m[at..at + len] == mem[at..at + len];
    assert m[at..at + len + n] == m[at..at + len] + m[at + len..at + len + n];
  }

  /** A chunk that fits the capacity. */
  lemma PushFits(heapBase: u32, h: Heap, b: Buffer, content: seq<byte>, bytes: List8)
    requires Placed(heapBase, h, b) && Holds(b, h.mem, content) && bytes != [] && b.len + |bytes| <= b.cap
    requires Lower(heapBase, h, bytes).Some?
    ensures
      var (p, h1) := Lower(heapBase, h, bytes).value;
      var r := Push(heapBase, h1, b, p, |bytes|);
      r.Some? ==> Placed(heapBase, r.value.0, r.value.1) && Holds(r.value.1, r.value.0.mem, content + bytes)
  {
    hide Lower, Written, Holds;
    var n: u32 := |bytes|;
    LowerPlaces(heapBase, h, bytes);
    var p: u32 := HeapStart(heapBase, h.top);
    var m1 := Written(h.mem, p, bytes);
    if b.ptr + b.len + n > |h.mem| {
      WrittenKeeps(h.mem, p, bytes, 0, 0);
      AppendLeaves(heapBase, h, b, content, m1, p, n);
    } else {
      WrittenHolds(h.mem, p, bytes, b, content);
      WrittenKeeps(h.mem, p, bytes, 0, 0);
      AppendHolds(b, m1, content, p, bytes);
    }
  }

  lemma WrittenHolds(mem: Memory, at: nat, bytes: seq<byte>, b: Buffer, content: seq<byte>)
    requires at + |bytes| <= |mem| && Holds(b, mem, content)
    requires content == [] || b.ptr + b.len <= at || at + |bytes| <= b.ptr
    ensures Holds(b, Written(mem, at, bytes), content)
  {
    if content != [] { WrittenKeeps(mem, at, bytes, b.ptr, b.ptr + b.len); } else { WrittenKeeps(mem, at, bytes, 0, 0); }
  }

  lemma AppendLeaves(heapBase: u32, h: Heap, b: Buffer, content: seq<byte>, m: Memory, src: u32, n: u32)
    requires Placed(heapBase, h, b) && Holds(b, h.mem, content) && b.cap > 0 && 0 < n && b.len + n <= b.cap
    requires |m| == |h.mem| && src + n <= |m| && src == HeapStart(heapBase, h.top) && b.ptr + b.len + n > |m|
    ensures CopyFrom(m, Add32(b.ptr, b.len), src, 0, n).None?
  {
    if b.ptr + b.len <= |m| {
      CopyLeaves(m, b.ptr + b.len, src, 0, n);
    }
  }

  /** Past its capacity a wrapped buffer cannot grow: copying it would leave memory. */
  lemma WrappedCannotGrow(heapBase: u32, h: Heap, b: Buffer, m: Memory, top: u32, newCap: u32)
    requires Placed(heapBase, h, b) && b.cap > 0 && b.ptr + b.cap >= TWO32 && newCap > b.cap
    requires |m| == |h.mem| && 0 < top <= |m|
    ensures Realloc(heapBase, top, m, Request(b.ptr, b.cap, 1, newCap)).Trapped?
  {
    assert AlignUp(top, 1) == top;
    if b.ptr <= |m| { CopyLeaves(m, top, b.ptr, 0, b.cap); }
  }

  /** Moving a buffer to the heap's end keeps its content, or leaves memory. */
  lemma GrownHolds(heapBase: u32, b: Buffer, content: seq<byte>, m: Memory, top: u32, newCap: u32)
    requires heapBase > 0 && Holds(b, m, content) && newCap > b.cap && |m| <= TWO32 - PAGE && 0 < top <= |m|
    requires b.cap > 0 ==> 0 < b.ptr && b.ptr + b.cap <= top
    ensures
      var r := Realloc(heapBase, top, m, Request(b.ptr, b.cap, 1, newCap));
      r.Allocated? ==>
        && r.ptr == top && r.heap == Add32(top, newCap) && top + b.cap <= |m|
        && SameOutside(m, r.mem, top, top + b.cap)
        && Holds(Buffer(top, b.len, newCap), r.mem, content)
  {
    hide CopyFrom;
    assert AlignUp(top, 1) == top;
    if b.ptr != 0 && b.cap > 0 {
      if top + b.cap > |m| {
        CopyLeaves(m, top, b.ptr, 0, b.cap);
      } else {
        CopyMovesBytes(m, top, b.ptr, 0, b.cap);
        CopyWritesTarget(m, top, b.ptr, 0, b.cap);
        var m1 := CopyFrom(m, top, b.ptr, 0, b.cap).value;
        SlicePrefix(m1, top, b.cap, b.len);
        SlicePrefix(m, b.ptr, b.cap, b.len);
      }
    }
  }

  lemma SlicePrefix(m: seq<byte>, at: nat, n: nat, k: nat)
    requires k <= n && at + n <= |m|
    ensures m[at..at + n][..k] == m[at..at + k]
  {
  }

  /** Where a regrown buffer ends up, once the append has fitted memory. */
  lemma RegrownPlaced(heapBase: u32, mem: Memory, top: u32, cap: u32, need: u32)
    requires heapBase > 0 && |mem| <= TWO32 - PAGE && need > cap
    requires heapBase + need <= top && top + need <= |mem|
    ensures
      var newCap := Capacity(cap, need);
      Placed(heapBase, Heap(Add32(top, newCap), mem), Buffer(top, need, newCap))
  {
    CapacityFits(cap, need);
  }

  /** A chunk that needs a larger buffer. */
  lemma PushGrows(heapBase: u32, h: Heap, b: Buffer, content: seq<byte>, bytes: List8)
    requires Placed(heapBase, h, b) && Holds(b, h.mem, content) && bytes != [] && b.len + |bytes| > b.cap
    requires Lower(heapBase, h, bytes).Some?
    ensures
      var (p, h1) := Lower(heapBase, h, bytes).value;
      var r := Push(heapBase, h1, b, p, |bytes|);
      r.Some? ==> Placed(heapBase, r.value.0, r.value.1) && Holds(r.value.1, r.value.0.mem, content + bytes)
  {
    hide Lower, Written, Holds, Capacity, Realloc, Push;
    var n: u32 := |bytes|;
    LowerPlaces(heapBase, h, bytes);
    var p: u32 := HeapStart(heapBase, h.top);
    var top: u32 := p + n;
    var m1 := Written(h.mem, p, bytes);
    WrittenKeeps(h.mem, p, bytes, 0, 0);
    if b.len + n < TWO32 {
      var need: u32 := b.len + n;
      var newCap := Capacity(b.cap, need);
      CapacityFits(b.cap, need);
      if b.cap > 0 && b.ptr + b.cap >= TWO32 {
        WrappedCannotGrow(heapBase, h, b, m1, top, newCap);
        GrowTraps(heapBase, Heap(top, m1), b, p, n);
      } else {
        HoldsLength(b, h.mem, content);
        WrittenHolds(h.mem, p, bytes, b, content);
        GrownHolds(heapBase, b, content, m1, top, newCap);
        PushAfterGrowth(heapBase, h.mem, b, content, m1, p, bytes);
      }
    } else {
      TooLongTraps(heapBase, Heap(top, m1), b, p, n);
    }
  }

  lemma HoldsLength(b: Buffer, mem: Memory, content: seq<byte>)
    requires Holds(b, mem, content)
    ensures b.len == |content| && b.len <= b.cap
  {
  }

  lemma TooLongTraps(heapBase: u32, h: Heap, b: Buffer, src: u32, n: u32)
    requires b.len + n >= TWO32
    ensures Push(heapBase, h, b, src, n).None?
  {
  }

  lemma GrowTraps(heapBase: u32, h: Heap, b: Buffer, src: u32, n: u32)
    requires b.cap < b.len + n < TWO32
    requires Realloc(heapBase, h.top, h.mem, Request(b.ptr, b.cap, 1, Capacity(b.cap, b.len + n))).Trapped?
    ensures Push(heapBase, h, b, src, n).None?
  {
  }

  lemma PushMoved(heapBase: u32, h: Heap, b: Buffer, src: u32, n: u32, r: AllocResult)
    requires b.cap < b.len + n < TWO32 && r.Allocated? && r.ptr != 0
    requires r == Realloc(heapBase, h.top, h.mem, Request(b.ptr, b.cap, 1, Capacity(b.cap, b.len + n)))
    ensures
      var m := CopyFrom(r.mem, Add32(r.ptr, b.len), src, 0, n);
      Push(heapBase, h, b, src, n)
      == if m.None? then None
         else Some((Heap(r.heap, m.value), Buffer(r.ptr, b.len + n, Capacity(b.cap, b.len + n))))
  {
    hide CopyFrom, Capacity, Realloc;
  }

  lemma PushAfterGrowth(heapBase: u32, mem: Memory, b: Buffer, content: seq<byte>, m1: Memory, p: u32, bytes: List8)
    requires heapBase > 0 && bytes != [] && b.cap < b.len + |bytes| < TWO32 && b.len <= b.cap
    requires |m1| == |mem| <= TWO32 - PAGE && p + |bytes| <= |mem| && heapBase <= p
    requires m1[p..p + |bytes|] == bytes
    requires b.cap > 0 ==> heapBase <= b.ptr && b.ptr + b.cap <= p
    requires
      var top: u32 := p + |bytes|;
      var newCap := Capacity(b.cap, b.len + |bytes|);
      var r := Realloc(heapBase, top, m1, Request(b.ptr, b.cap, 1, newCap));
      && newCap >= b.len + |bytes|
      && (r.Allocated? ==>
        && r.ptr == top && r.heap == Add32(top, newCap) && top + b.cap <= |m1|
        && SameOutside(m1, r.mem, top, top + b.cap)
        && Holds(Buffer(top, b.len, newCap), r.mem, content))
    ensures
      var r := Push(heapBase, Heap(p + |bytes|, m1), b, p, |bytes|);
      r.Some? ==> Placed(heapBase, r.value.0, r.value.1) && Holds(r.value.1, r.value.0.mem, content + bytes)
  {
    hide Capacity, Realloc, Holds, Placed, Push, CopyFrom;
    var n: u32 := |bytes|;
    var top: u32 := p + n;
    var need: u32 := b.len + n;
    var newCap := Capacity(b.cap, need);
    var r := Realloc(heapBase, top, m1, Request(b.ptr, b.cap, 1, newCap));
    if r.Trapped? {
      GrowTraps(heapBase, Heap(top, m1), b, p, n);
    } else {
      PushMoved(heapBase, Heap(top, m1), b, p, n, r);
      var b1 := Buffer(top, b.len, newCap);
      assert r.mem[p..top] == m1[p..top];
      if top + need > |r.mem| {
        CopyLeaves(r.mem, top + b.len, p, 0, n);
      } else {
        AppendHolds(b1, r.mem, content, p, bytes);
        var m2 := CopyFrom(r.mem, top + b.len, p, 0, n).value;
        RegrownPlaced(heapBase, m2, top, b.cap, need);
      }
    }
  }

  // ---------- the buffer holds exactly the bytes read ----------

  /** A finished reading has exactly the input in its buffer. */
  ghost predicate HoldsInput(o: Reading, received: Received) {
    o.Ended? && o.end == Finished ==>
      received.Input? && Holds(o.buf, o.heap.mem, received.bytes)
  }

  lemma {:induction false} ReadingHolds(heapBase: u32, h: Heap, b: Buffer, got: seq<byte>, input: seq<ReadResult>, budget: nat)
    requires Placed(heapBase, h, b) && Holds(b, h.mem, got)
    ensures HoldsInput(ReadAll(heapBase, h, b, |got|, input, budget), Receive(got, input, budget))
    decreases |input|
  {
    hide Lower, Push, Placed, Holds;
    if input != [] && input[0].Chunk? {
      var bytes := input[0].bytes;
      var lowered := Lower(heapBase, h, bytes);
      if lowered.Some? && bytes == [] {
        EmptyLower(heapBase, h);
      } else if lowered.Some? && |got| + |bytes| <= budget {
        var pushed := Push(heapBase, lowered.value.1, b, lowered.value.0, |bytes|);
        if pushed.Some? {
          OnePush(heapBase, h, b, got, bytes);
          ReadingHolds(heapBase, pushed.value.0, pushed.value.1, got + bytes, input[1..], budget);
        }
      }
    }
  }

  lemma EmptyLower(heapBase: u32, h: Heap)
    ensures Lower(heapBase, h, []) == Some((1, h))
  {
  }

  lemma OnePush(heapBase: u32, h: Heap, b: Buffer, content: seq<byte>, bytes: List8)
    requires Placed(heapBase, h, b) && Holds(b, h.mem, content) && bytes != []
    requires Lower(heapBase, h, bytes).Some?
    ensures
      var (p, h1) := Lower(heapBase, h, bytes).value;
      var r := Push(heapBase, h1, b, p, |bytes|);
      r.Some? ==> Placed(heapBase, r.value.0, r.value.1) && Holds(r.value.1, r.value.0.mem, content + bytes)
  {
    hide Lower, Push, Placed, Holds;
    if b.len + |bytes| <= b.cap { PushFits(heapBase, h, b, content, bytes); } else { PushGrows(heapBase, h, b, content, bytes); }
  }

  /** The heap a run starts reading with. */
  ghost predicate StartsWell(heapBase: u32, h: Heap) { heapBase > 0 && (h.top == 0 || heapBase <= h.top) }

  ghost predicate ReadsAnything(heapBase: u32, h: Heap, budget: nat) {
    forall input :: HoldsInput(ReadAll(heapBase, h, EMPTY, 0, input, budget), Receive([], input, budget))
  }

  /** In every memory short of the full 4 GiB, whatever the budget, the chunks and the regrowths. */
  lemma BufferHoldsInput(heapBase: u32, h: Heap, input: seq<ReadResult>, budget: nat)
    requires StartsWell(heapBase, h) && |h.mem| <= TWO32 - PAGE
    ensures HoldsInput(ReadAll(heapBase, h, EMPTY, 0, input, budget), Receive([], input, budget))
  {
    ReadingHolds(heapBase, h, EMPTY, [], input, budget);
  }

  /** In a full memory it fails: a chunk of more than half the room left is appended across the end of memory. */
  lemma FullMemoryLosesInput(heapBase: u32, h: Heap, bytes: List8, budget: nat)
    requires heapBase > 0 && |h.mem| == TWO32 && |bytes| <= budget
    requires
      var start := HeapStart(heapBase, h.top);
      start + |bytes| < TWO32 < start + 2 * |bytes|
    ensures !HoldsInput(ReadAll(heapBase, h, EMPTY, 0, [Chunk(bytes)], budget), Receive([], [Chunk(bytes)], budget))
  {
    hide CopyFrom, Capacity, Grow;
    var n: u32 := |bytes|;
    var start := HeapStart(heapBase, h.top);
    var top: u32 := start + n;
    assert AlignUp(start, 1) == start && AlignUp(top, 1) == top;
    CapacityFits(0, n);
    var m1 := Written(h.mem, start, bytes);
    WrittenKeeps(h.mem, start, bytes, 0, 0);
    FullCopyWraps(m1, top, start, 0, n);
    assert [Chunk(bytes)][1..] == [];
    assert [] + bytes == bytes;
  }

  /**
   For memories of whole pages, a budget of at least 2 GiB and a little room above the heap: the buffer
   holds the input of every stream exactly when the memory is not full.
   */
  lemma ReadsAnythingIff(heapBase: u32, h: Heap, budget: nat)
    requires StartsWell(heapBase, h) && (|h.mem| <= TWO32 - PAGE || |h.mem| == TWO32)
    requires HeapStart(heapBase, h.top) <= TWO32 - 4 && budget >= TWO32 / 2
    ensures ReadsAnything(heapBase, h, budget) <==> |h.mem| < TWO32
  {
    hide ReadAll, Receive, HoldsInput;
    if |h.mem| < TWO32 {
      forall input ensures HoldsInput(ReadAll(heapBase, h, EMPTY, 0, input, budget), Receive([], input, budget)) {
        BufferHoldsInput(heapBase, h, input, budget);
      }
    } else {
      var start := HeapStart(heapBase, h.top);
      var bytes: List8 := seq((TWO32 - start) / 2 + 1, _ => 0);
      FullMemoryLosesInput(heapBase, h, bytes, budget);
    }
  }

  /** The first chunk of a reading, when its new buffer's end is exactly 2^32: the heap pointer is lost. */
  lemma FirstChunkEndsHeap(heapBase: u32, h: Heap, first: List8)
    requires heapBase > 0 && first != [] && h.top > 0 && |h.mem| < TWO32
    requires
      var at := h.top + |first|;
      at + |first| <= |h.mem| && at + Capacity(0, |first|) == TWO32
    ensures
      var at := h.top + |first|;
      && Lower(heapBase, h, first).Some?
      && var (p, h1) := Lower(heapBase, h, first).value;
         var r := Push(heapBase, h1, EMPTY, p, |first|);
         && r.Some? && r.value.0.top == 0 && |r.value.0.mem| == |h.mem|
         && r.value.1 == Buffer(at, |first|, Capacity(0, |first|)) && Holds(r.value.1, r.value.0.mem, first)
  {
    hide CopyFrom, Capacity, Lower, Push;
    var n: u32 := |first|;
    var at: u32 := h.top + n;
    LowerPlaces(heapBase, h, first);
    CapacityFits(0, n);
    var m1 := Written(h.mem, h.top, first);
    WrittenKeeps(h.mem, h.top, first, 0, 0);
    assert AlignUp(at, 1) == at;
    PushMoved(heapBase, Heap(at, m1), EMPTY, h.top, n, Allocated(at, 0, m1));
    assert [] + first == first;
    AppendHolds(Buffer(at, 0, Capacity(0, n)), m1, [], h.top, first);
  }

  /**
   The start of the heap matters too: below the heap base, a buffer that ends exactly at 2^32 resets the
   heap to its base, and if that lies in the buffer the next chunk overwrites it.
   */
  lemma LowHeapLosesInput(heapBase: u32, h: Heap, first: List8, x: byte, budget: nat)
    requires heapBase > 0 && first != [] && h.top > 0 && |h.mem| < TWO32 && |first| + 1 <= budget
    requires
      var at := h.top + |first|;
      && at + |first| < |h.mem| && at + Capacity(0, |first|) == TWO32
      && at <= heapBase < at + |first| && first[heapBase - at] != x
    ensures
      var input := [Chunk(first), Chunk([x])];
      !HoldsInput(ReadAll(heapBase, h, EMPTY, 0, input, budget), Receive([], input, budget))
  {
    hide Capacity, Lower, Push, Holds;
    var n: u32 := |first|;
    var at: u32 := h.top + n;
    FirstChunkEndsHeap(heapBase, h, first);
    var (p, h1) := Lower(heapBase, h, first).value;
    var (h2, b) := Push(heapBase, h1, EMPTY, p, n).value;
    CapacityFits(0, n);
    ByteOverwrites(heapBase, h2.mem, b, x);
    var (p2, h3) := Lower(heapBase, h2, [x]).value;
    var (h4, b4) := Push(heapBase, h3, b, p2, 1).value;
    ReadChunk(heapBase, h, EMPTY, [], first, [Chunk([x])], budget);
    ReadChunk(heapBase, h2, b, first, [x], [], budget);
    assert [Chunk(first)] + [Chunk([x])] == [Chunk(first), Chunk([x])] && [Chunk([x])] + [] == [Chunk([x])];
    assert [] + first == first;
    if Holds(b4, h4.mem, first + [x]) { HeldByte(b4, h4.mem, first + [x], heapBase - at); }
  }

  /** Such a first chunk exists: one byte past 1 GiB gets a capacity of 2 GiB. */
  lemma LowHeapExample(mem: Memory, first: List8, budget: nat)
    requires |mem| == TWO32 - PAGE && |first| == 0x4000_0001 && first[0] != 1 && budget > |first|
    ensures
      var input := [Chunk(first), Chunk([1])];
      !HoldsInput(ReadAll(0x8000_0000, Heap(0x3fff_ffff, mem), EMPTY, 0, input, budget), Receive([], input, budget))
  {
    hide ReadAll, Receive, HoldsInput;
    GrowsToPower(12, 0x4000_0001);
    assert Pow2(12) == 4096 by { assert Pow2(6) == 64; }
    LowHeapLosesInput(0x8000_0000, Heap(0x3fff_ffff, mem), first, 1, budget);
  }

  lemma {:induction false} GrowsToPower(k: nat, need: u32)
    requires k <= 31 && 0x4000_0000 < need <= 0x8000_0000
    ensures Pow2(k) <= 0x8000_0000 && Grow(Pow2(k), need) == 0x8000_0000
    decreases 31 - k
  {
    assert Pow2(31) == 0x8000_0000 && Pow2(30) == 0x4000_0000 by { Pow2Of32(); }
    if k < 31 {
      GrowsToPower(k + 1, need);
      assert Pow2(k) <= 0x4000_0000 by { Pow2Monotone(k, 30); }
    }
  }

  lemma ByteOverwrites(heapBase: u32, mem: Memory, b: Buffer, x: byte)
    requires 0 < b.ptr <= heapBase < b.ptr + b.len < |mem| < TWO32 && b.len < b.cap
    ensures
      && Lower(heapBase, Heap(0, mem), [x]).Some?
      && var (p, h1) := Lower(heapBase, Heap(0, mem), [x]).value;
         var r := Push(heapBase, h1, b, p, 1);
         r.Some? && r.value.1 == b.(len := b.len + 1) && |r.value.0.mem| == |mem| && r.value.0.mem[heapBase] == x
  {
    hide CopyFrom, Lower, Push, Written;
    LowerPlaces(heapBase, Heap(0, mem), [x]);
    var m := Written(mem, heapBase, [x]);
    OneWritten(mem, heapBase, x);
    CopySucceeds(m, b.ptr + b.len, heapBase, 1);
    CopyWritesTarget(m, b.ptr + b.len, heapBase, 0, 1);
    PushInPlace(heapBase, Heap(heapBase + 1, m), b, heapBase, 1);
  }

  lemma HeldByte(b: Buffer, mem: Memory, content: seq<byte>, j: nat)
    requires Holds(b, mem, content) && j < |content|
    ensures b.ptr + j < |mem| && mem[b.ptr + j] == content[j]
  {
    assert mem[b.ptr..b.ptr + b.len][j] == mem[b.ptr + j];
  }

  /** One more chunk, seen from the loop and from the stream. */
  lemma ReadChunk(heapBase: u32, h: Heap, b: Buffer, got: seq<byte>, bytes: List8, more: seq<ReadResult>, budget: nat)
    requires bytes != [] && |got| + |bytes| <= budget && Lower(heapBase, h, bytes).Some?
    requires Push(heapBase, Lower(heapBase, h, bytes).value.1, b, Lower(heapBase, h, bytes).value.0, |bytes|).Some?
    ensures
      var (p, h1) := Lower(heapBase, h, bytes).value;
      var (h2, b2) := Push(heapBase, h1, b, p, |bytes|).value;
      ReadAll(heapBase, h, b, |got|, [Chunk(bytes)] + more, budget)
      == ReadAll(heapBase, h2, b2, |got| + |bytes|, more, budget)
    ensures Receive(got, [Chunk(bytes)] + more, budget) == Receive(got + bytes, more, budget)
  {
    hide Lower, Push;
    assert ([Chunk(bytes)] + more)[1..] == more;
  }

  lemma OneWritten(mem: Memory, at: nat, x: byte)
    requires at < |mem|
    ensures |Written(mem, at, [x])| == |mem| && Written(mem, at, [x])[at] == x
  {
  }

  // ---------- reading does not trap ----------

  /** What the heap can have reached: the chunks, and twice the last capacity for all buffers so far. */
  ghost predicate Bounded(heapBase: u32, h: Heap, b: Buffer, start: nat) {
    && Placed(heapBase, h, b) && (b.cap > 0 ==> b.ptr + b.cap < TWO32)
    && HeapStart(heapBase, h.top) <= start + b.len + 2 * b.cap
    && (b.cap < 2 * b.len || b.cap == 4096 || b.cap == 0) && b.len <= b.cap
  }

  ghost predicate SmallChunks(input: seq<ReadResult>, most: nat) {
    forall k :: 0 <= k < |input| && input[k].Chunk? ==> |input[k].bytes| <= most
  }

  /** Memory for five times the budget, two first buffers and one more chunk above the heap is enough. */
  lemma {:induction false} ReadingDoesNotTrap(heapBase: u32, h: Heap, b: Buffer, got: seq<byte>, start: nat,
                                              input: seq<ReadResult>, budget: nat, most: nat)
    requires Bounded(heapBase, h, b, start) && Holds(b, h.mem, got) && |got| <= budget && SmallChunks(input, most)
    requires start + 5 * budget + 8192 + most <= |h.mem|
    ensures ReadAll(heapBase, h, b, |got|, input, budget).Ended?
    decreases |input|
  {
    hide Lower, Push, Holds;
    if input != [] && input[0].Chunk? && input[0].bytes != [] {
      var bytes := input[0].bytes;
      HoldsLength(b, h.mem, got);
      LowerPlaces(heapBase, h, bytes);
      if |got| + |bytes| <= budget {
        PushHasRoom(heapBase, h, b, got, bytes, start, budget);
        var (p, h1) := Lower(heapBase, h, bytes).value;
        var pushed := Push(heapBase, h1, b, p, |bytes|).value;
        OnePush(heapBase, h, b, got, bytes);
        ReadingDoesNotTrap(heapBase, pushed.0, pushed.1, got + bytes, start, input[1..], budget, most);
      }
    } else if input != [] && input[0].Chunk? {
      EmptyLower(heapBase, h);
    }
  }

  lemma PushHasRoom(heapBase: u32, h: Heap, b: Buffer, content: seq<byte>, bytes: List8, start: nat, budget: nat)
    requires Bounded(heapBase, h, b, start) && Holds(b, h.mem, content) && bytes != []
    requires b.len + |bytes| <= budget && start + 5 * budget + 8192 <= |h.mem|
    ensures Lower(heapBase, h, bytes).Some?
    ensures
      var (p, h1) := Lower(heapBase, h, bytes).value;
      var r := Push(heapBase, h1, b, p, |bytes|);
      r.Some? && |r.value.0.mem| == |h.mem| && Bounded(heapBase, r.value.0, r.value.1, start)
  {
    hide Lower, Written, Holds, Push, CopyFrom;
    var n: u32 := |bytes|;
    LowerPlaces(heapBase, h, bytes);
    var p: u32 := HeapStart(heapBase, h.top);
    var m1 := Written(h.mem, p, bytes);
    WrittenKeeps(h.mem, p, bytes, 0, 0);
    if b.len + n <= b.cap {
      CopySucceeds(m1, b.ptr + b.len, p, n);
      PushInPlace(heapBase, Heap(p + n, m1), b, p, n);
    } else {
      MoveHasRoom(heapBase, h, b, m1, n, start, budget);
    }
  }

  lemma MoveHasRoom(heapBase: u32, h: Heap, b: Buffer, m1: Memory, n: u32, start: nat, budget: nat)
    requires Bounded(heapBase, h, b, start) && n > 0 && b.cap < b.len + n <= budget && |m1| == |h.mem|
    requires start + 5 * budget + 8192 <= |h.mem|
    ensures HeapStart(heapBase, h.top) + n < TWO32
    ensures
      var p: u32 := HeapStart(heapBase, h.top);
      var r := Push(heapBase, Heap(p + n, m1), b, p, n);
      r.Some? && |r.value.0.mem| == |h.mem| && Bounded(heapBase, r.value.0, r.value.1, start)
  {
    hide Capacity, Realloc, Push, CopyFrom;
    var p: u32 := HeapStart(heapBase, h.top);
    var top: u32 := p + n;
    var need: u32 := b.len + n;
    CapacityFits(b.cap, need);
    var newCap := Capacity(b.cap, need);
    RoomToMove(heapBase, b, m1, top, newCap);
    var r := Realloc(heapBase, top, m1, Request(b.ptr, b.cap, 1, newCap));
    CopySucceeds(r.mem, top + b.len, p, n);
    PushMoved(heapBase, Heap(top, m1), b, p, n, r);
  }

  lemma CopySucceeds(mem: Memory, dst: u32, src: u32, n: u32)
    requires dst + n <= |mem| && src + n <= |mem|
    ensures CopyFrom(mem, dst, src, 0, n).Some? && |CopyFrom(mem, dst, src, 0, n).value| == |mem|
  {
    CopyWritesTarget(mem, dst, src, 0, n);
  }

  lemma PushInPlace(heapBase: u32, h: Heap, b: Buffer, src: u32, n: u32)
    requires b.len + n <= b.cap && CopyFrom(h.mem, Add32(b.ptr, b.len), src, 0, n).Some?
    ensures Push(heapBase, h, b, src, n)
         == Some((h.(mem := CopyFrom(h.mem, Add32(b.ptr, b.len), src, 0, n).value), b.(len := b.len + n)))
  {
  }

  lemma RoomToMove(heapBase: u32, b: Buffer, m: Memory, top: u32, newCap: u32)
    requires 0 < top && newCap > b.cap && top + newCap <= |m| < TWO32
    requires b.cap > 0 ==> b.ptr + b.cap <= top
    ensures
      var r := Realloc(heapBase, top, m, Request(b.ptr, b.cap, 1, newCap));
      r.Allocated? && r.ptr == top && r.heap == top + newCap && |r.mem| == |m|
  {
    assert AlignUp(top, 1) == top;
    if b.ptr != 0 && b.cap != 0 { CopySucceeds(m, top, b.ptr, b.cap); }
  }

  /** Reading from an empty buffer cannot trap when memory has that much room above the heap. */
  lemma ReadsWithoutTrap(heapBase: u32, h: Heap, input: seq<ReadResult>, budget: nat, most: nat)
    requires StartsWell(heapBase, h) && |h.mem| <= TWO32 - PAGE && SmallChunks(input, most)
    requires HeapStart(heapBase, h.top) + 5 * budget + 8192 + most <= |h.mem|
    ensures ReadAll(heapBase, h, EMPTY, 0, input, budget).Ended?
  {
    ReadingDoesNotTrap(heapBase, h, EMPTY, [], HeapStart(heapBase, h.top), input, budget, most);
  }
}
