/**
 The freestanding libc shims: block copies that may overlap, and a bounded snprintf
 against the text it would print without a bound.
 */
module FreestandingLibc {
  import opened Words
  import opened JsonText

  // ---------- block copies ----------

  /** Memory with the n bytes at dst replaced by those that were at src. */
  function Moved(mem: Bytes, dst: nat, src: nat, n: nat): Bytes
    requires dst + n <= |mem| && src + n <= |mem|
  {
    mem[..dst] + mem[src..src + n] + mem[dst + n..]
  }

  lemma MovedAt(before: Bytes, after: Bytes, dst: nat, src: nat, n: nat)
    requires |before| == |after| && dst + n <= |before| && src + n <= |before|
    requires forall k :: dst <= k < dst + n ==> after[k] == before[k - dst + src]
    requires forall k :: 0 <= k < |after| && !(dst <= k < dst + n) ==> after[k] == before[k]
    ensures after == Moved(before, dst, src, n)
  {
  }

  method Memcpy(mem: array<byte>, dst: nat, src: nat, n: nat)
    requires dst + n <= mem.Length && src + n <= mem.Length
    modifies mem
    ensures dst <= src || src + n <= dst ==> mem[..] == Moved(old(mem[..]), dst, src, n)
    ensures forall k :: 0 <= k < mem.Length && !(dst <= k < dst + n) ==> mem[k] == old(mem[k])
  {
    hide Moved;
    ghost var before := mem[..];
    for i := 0 to n
      invariant dst <= src || src + n <= dst ==>
        forall k :: dst <= k < dst + i ==> mem[k] == before[k - dst + src]
      invariant forall k :: 0 <= k < mem.Length && !(dst <= k < dst + i) ==> mem[k] == before[k]
    {
      mem[dst + i] := mem[src + i];
    }
    if dst <= src || src + n <= dst { MovedAt(before, mem[..], dst, src, n); }
  }

  /** The destination gets the old source bytes for every overlap; nothing else changes. */
  method Memmove(mem: array<byte>, dst: nat, src: nat, n: nat)
    requires dst + n <= mem.Length && src + n <= mem.Length
    modifies mem
    ensures mem[..] == Moved(old(mem[..]), dst, src, n)
  {
    hide Moved;
    ghost var before := mem[..];
    if dst == src || n == 0 {
      MovedAt(before, mem[..], dst, src, n);
      return;
    }
    if dst < src {
      for i := 0 to n
        invariant forall k :: dst <= k < dst + i ==> mem[k] == before[k - dst + src]
        invariant forall k :: 0 <= k < mem.Length && !(dst <= k < dst + i) ==> mem[k] == before[k]
      {
        mem[dst + i] := mem[src + i];
      }
      MovedAt(before, mem[..], dst, src, n);
      return;
    }
    var i := n;
    while i != 0
      invariant 0 <= i <= n
      invariant forall k :: dst + i <= k < dst + n ==> mem[k] == before[k - dst + src]
      invariant forall k :: 0 <= k < mem.Length && !(dst + i <= k < dst + n) ==> mem[k] == before[k]
    {
      mem[dst + (i - 1)] := mem[src + (i - 1)];
      i := i - 1;
    }
    MovedAt(before, mem[..], dst, src, n);
  }

  // ---------- the unbounded rendering ----------

  type CString = s: Bytes | 0 !in s witness []

  datatype Arg = UInt(v: u32) | Ptr(p: u32) | Chars(text: Option<CString>)

  const PERCENT: byte := 0x25
  const CHAR_U: byte := 0x75
  const CHAR_P: byte := 0x70
  const CHAR_S: byte := 0x73
  const NULL_TEXT := Ascii("(null)")
  const HEX_PREFIX := Ascii("0x")

  function LowerHex(v: nat): byte
    requires v < 16
  {
    if v < 10 then 0x30 + v else 0x61 + (v - 10)
  }

  function Hex(n: nat): (h: Bytes)
    ensures h != []
  {
    if n < 16 then [LowerHex(n)] else Hex(n / 16) + [LowerHex(n % 16)]
  }

  function TextOf(c: Arg): Bytes {
    match c
    case UInt(v) => Decimal(v)
    case Ptr(p) => HEX_PREFIX + Hex(p)
    case Chars(text) => if text.Some? then text.value else NULL_TEXT
  }

  /** The directive letter an argument answers. */
  function LetterOf(c: Arg): byte {
    match c
    case UInt(_) => CHAR_U
    case Ptr(_) => CHAR_P
    case Chars(_) => CHAR_S
  }

  predicate TakesArg(c: byte) { c == CHAR_U || c == CHAR_P || c == CHAR_S }

  /** The caller passes an argument of the right kind for each directive. */
  predicate Matches(fmt: Bytes, args: seq<Arg>)
    decreases |fmt|
  {
    if fmt == [] then true
    else if fmt[0] != PERCENT then Matches(fmt[1..], args)
    else if |fmt| == 1 then true
    else if TakesArg(fmt[1]) then args != [] && LetterOf(args[0]) == fmt[1] && Matches(fmt[2..], args[1..])
    else Matches(fmt[2..], args)
  }

  /** The whole text: a lone final '%' prints nothing, an unknown directive prints itself. */
  function Render(fmt: Bytes, args: seq<Arg>): Bytes
    requires Matches(fmt, args)
    decreases |fmt|
  {
    if fmt == [] then []
    else if fmt[0] != PERCENT then [fmt[0]] + Render(fmt[1..], args)
    else if |fmt| == 1 then []
    else if TakesArg(fmt[1]) then TextOf(args[0]) + Render(fmt[2..], args[1..])
    else if fmt[1] == PERCENT then [PERCENT] + Render(fmt[2..], args)
    else [PERCENT, fmt[1]] + Render(fmt[2..], args)
  }

  /** What each directive prints, before any rest of a format. */
  lemma DirectivesPrint(v: u32, p: u32, text: CString, c: byte, rest: Bytes, args: seq<Arg>)
    requires Matches(rest, args)
    ensures Matches(Ascii("%u") + rest, [UInt(v)] + args)
      && Render(Ascii("%u") + rest, [UInt(v)] + args) == Decimal(v) + Render(rest, args)
    ensures Matches(Ascii("%p") + rest, [Ptr(p)] + args)
      && Render(Ascii("%p") + rest, [Ptr(p)] + args) == Ascii("0x") + Hex(p) + Render(rest, args)
    ensures Matches(Ascii("%s") + rest, [Chars(Some(text))] + args)
      && Render(Ascii("%s") + rest, [Chars(Some(text))] + args) == text + Render(rest, args)
    ensures Matches(Ascii("%s") + rest, [Chars(None)] + args)
      && Render(Ascii("%s") + rest, [Chars(None)] + args) == Ascii("(null)") + Render(rest, args)
    ensures Render(Ascii("%%") + rest, args) == Ascii("%") + Render(rest, args)
    ensures c !in {0x75, 0x70, 0x73, 0x25} ==> Render(Ascii("%") + [c] + rest, args) == Ascii("%") + [c] + Render(rest, args)
    ensures c != 0x25 ==> Render([c] + rest, args) == [c] + Render(rest, args)
    ensures Render(Ascii("%"), []) == []
  {
    hide Decimal, Hex;
    assert (Ascii("%u") + rest)[2..] == rest && (Ascii("%p") + rest)[2..] == rest && (Ascii("%s") + rest)[2..] == rest;
    assert (Ascii("%%") + rest)[2..] == rest && (Ascii("%") + [c] + rest)[2..] == rest && ([c] + rest)[1..] == rest;
    assert ([UInt(v)] + args)[1..] == args && ([Ptr(p)] + args)[1..] == args;
    assert ([Chars(Some(text))] + args)[1..] == args && ([Chars(None)] + args)[1..] == args;
  }

  // ---------- digits denote their value ----------

  /** The printed digits denote the number and have no leading zero. */
  lemma {:induction false} DecimalDenotes(n: nat)
    ensures DecimalValue(Decimal(n)) == n
    ensures n > 0 ==> Decimal(n)[0] != 0x30
  {
    if n >= 10 {
      var d := Decimal(n);
      DecimalDenotes(n / 10);
      assert d[..|d| - 1] == Decimal(n / 10);
    } else {
      assert Decimal(n)[..0] == [];
    }
  }

  function LowerHexValue(c: byte): int { if c < 0x61 then c as int - 0x30 else c as int - 0x61 + 10 }

  function HexValue(s: Bytes): int {
    if s == [] then 0 else HexValue(s[..|s| - 1]) * 16 + LowerHexValue(s[|s| - 1])
  }

  lemma {:induction false} HexDenotes(n: nat)
    ensures HexValue(Hex(n)) == n
    ensures n > 0 ==> Hex(n)[0] != 0x30
  {
    if n >= 16 {
      var h := Hex(n);
      HexDenotes(n / 16);
      assert h[..|h| - 1] == Hex(n / 16);
    } else {
      assert Hex(n)[..0] == [];
    }
  }

  // ---------- the bounded writer ----------

  function Min(x: nat, y: nat): nat { if x < y then x else y }

  /** A buffer holding what of a text fits before the last of its n bytes. */
  ghost function Holding(before: Bytes, text: Bytes, n: nat): Bytes
    requires 0 < n <= |before|
  {
    text[..Min(|text|, n - 1)] + before[Min(|text|, n - 1)..]
  }

  function Reversed(s: Bytes): (r: Bytes)
    ensures |r| == |s|
  {
    if s == [] then [] else Reversed(s[1..]) + [s[0]]
  }

  lemma {:induction false} ReversedMore(s: Bytes, c: byte)
    ensures Reversed(s + [c]) == [c] + Reversed(s)
  {
    if s != [] {
      assert (s + [c])[1..] == s[1..] + [c];
      ReversedMore(s[1..], c);
    }
  }

  function Pow(base: nat, k: nat): nat { if k == 0 then 1 else base * Pow(base, k - 1) }

  /** The buffer, its size and the running position of one snprintf call. */
  class Writer {
    const s: array<byte>
    const n: u32
    var pos: u32

    /** A character was written outside the n bytes. */
    var strayed: bool

    /** The buffer at the start, and the text so far. */
    ghost const before: Bytes
    ghost var text: Bytes

    ghost predicate Valid()
      reads this, s
    {
      && 0 < n <= s.Length == |before|
      && (strayed <==> |text| >= TWO32)
      && (!strayed ==> pos == |text| && s[..] == Holding(before, text, n))
    }

    constructor (buf: array<byte>, size: u32)
      requires 0 < size <= buf.Length
      ensures Valid() && s == buf && n == size && text == [] && before == buf[..]
    {
      s, n, pos, strayed := buf, size, 0, false;
      before, text := buf[..], [];
    }

    /** At the last 32-bit position the position wraps, and the character goes outside. */
    method WriteChar(c: byte)
      requires Valid()
      modifies this, s
      ensures Valid() && text == old(text) + [c]
    {
      if Add32(pos, 1) < n {
        if pos < n { s[pos] := c; } else { strayed := true; }
      }
      pos := Add32(pos, 1);
      text := text + [c];
      assert !strayed ==> s[..] == Holding(before, text, n);
    }

    method WriteStr(v: Option<CString>)
      requires Valid()
      modifies this, s
      ensures Valid() && text == old(text) + TextOf(Chars(v))
    {
      var from: Bytes := if v.Some? then v.value else NULL_TEXT;
      for i := 0 to |from|
        invariant Valid() && text == old(text) + from[..i]
      {
        WriteChar(from[i]);
        assert from[..i + 1] == from[..i] + [from[i]];
      }
      assert from[..|from|] == from;
    }

    /** Writes len digits of a buffer, last first. */
    method WriteBackwards(tmp: array<byte>, len: nat)
      requires Valid() && tmp != s && len <= tmp.Length
      modifies this, s
      ensures Valid() && text == old(text) + Reversed(tmp[..len])
      ensures tmp[..] == old(tmp[..])
    {
      ghost var digits := tmp[..len];
      for i := 0 to len
        invariant Valid() && tmp[..] == old(tmp[..]) && text == old(text) + Reversed(digits[len - i..])
      {
        assert digits[len - 1 - i..][0] == digits[len - 1 - i] && digits[len - 1 - i..][1..] == digits[len - i..];
        WriteChar(tmp[len - 1 - i]);
      }
      assert digits[0..] == digits;
    }

    /** The 16-byte buffer is never full before the number ends. */
    method WriteU32Dec(v: u32)
      requires Valid()
      modifies this, s
      ensures Valid() && text == old(text) + Decimal(v)
    {
      hide Decimal, Pow, Reversed;
      SingleReversed(0x30);
      DecimalZero();
      var tmp := new byte[16];
      var len, left: nat := 0, v;
      if v == 0 {
        tmp[len] := 0x30;
        len := len + 1;
        assert tmp[..1] == [0x30];
      } else {
        Pow10Of10();
        NothingYet(tmp[..len], Decimal(v));
        while left != 0 && len < tmp.Length
          invariant len <= 10 && left < Pow(10, 10 - len)
          invariant left != 0 ==> Decimal(v) == Decimal(left) + Reversed(tmp[..len])
          invariant left == 0 ==> Decimal(v) == Reversed(tmp[..len])
          invariant Valid() && text == old(text)
          decreases left
        {
          ghost var done := tmp[..len];
          DigitsLeft(10, 10 - len, left);
          DecimalStep(left, Reversed(done));
          ReversedMore(done, 0x30 + left % 10);
          tmp[len] := 0x30 + left % 10;
          assert tmp[..len + 1] == done + [0x30 + left % 10];
          len := len + 1;
          left := left / 10;
        }
      }
      WriteBackwards(tmp, len);
    }

    /** The 8-byte buffer holds every address. */
    method WritePtrHex(v: u32)
      requires Valid()
      modifies this, s
      ensures Valid() && text == old(text) + Hex(v)
    {
      hide Hex, Pow, Reversed;
      SingleReversed(0x30);
      DecimalZero();
      var tmp := new byte[8];
      var len, left: nat := 0, v;
      if v == 0 {
        tmp[len] := 0x30;
        len := len + 1;
        assert tmp[..1] == [0x30];
      } else {
        Pow16Of8();
        NothingYet(tmp[..len], Hex(v));
        while left != 0 && len < tmp.Length
          invariant len <= 8 && left < Pow(16, 8 - len)
          invariant left != 0 ==> Hex(v) == Hex(left) + Reversed(tmp[..len])
          invariant left == 0 ==> Hex(v) == Reversed(tmp[..len])
          invariant Valid() && text == old(text)
          decreases left
        {
          ghost var done := tmp[..len];
          DigitsLeft(16, 8 - len, left);
          HexStep(left, Reversed(done));
          ReversedMore(done, LowerHex(left % 16));
          tmp[len] := LowerHex(left % 16);
          assert tmp[..len + 1] == done + [LowerHex(left % 16)];
          len := len + 1;
          left := left / 16;
        }
        if left != 0 { DigitsLeft(16, 8 - len, left); }
      }
      WriteBackwards(tmp, len);
    }
  }

  lemma Pow10Of10()
    ensures Pow(10, 10) >= TWO32
  {
    assert Pow(10, 5) == 100000;
    assert Pow(10, 10) == 100000 * Pow(10, 5);
  }

  lemma Pow16Of8()
    ensures Pow(16, 8) == TWO32
  {
    assert Pow(16, 4) == 65536;
    assert Pow(16, 8) == 65536 * Pow(16, 4);
  }

  lemma SingleReversed(c: byte)
    ensures Reversed([c]) == [c]
  {
    assert [c][1..] == [];
  }

  lemma DecimalZero()
    ensures Decimal(0) == [0x30] && Hex(0) == [0x30]
  {
  }

  lemma NothingYet(digits: Bytes, all: Bytes)
    requires digits == []
    ensures all + Reversed(digits) == all
  {
  }

  /** A number below base^k that is not zero has a digit to give. */
  lemma DigitsLeft(base: nat, k: nat, left: nat)
    requires (base == 10 || base == 16) && 0 < left < Pow(base, k)
    ensures k > 0 && left / base < Pow(base, k - 1)
  {
  }

  lemma DecimalStep(left: nat, done: Bytes)
    requires left != 0
    ensures
      var more := [0x30 + left % 10] + done;
      Decimal(left) + done == if left / 10 == 0 then more else Decimal(left / 10) + more
  {
  }

  lemma HexStep(left: nat, done: Bytes)
    requires left != 0
    ensures
      var more := [LowerHex(left % 16)] + done;
      Hex(left) + done == if left / 16 == 0 then more else Hex(left / 16) + more
  {
    hide LowerHex;
  }

  // ---------- snprintf ----------

  /** The conversion of the position to C's int. */
  function ToInt(pos: u32): int { if pos < TWO32 / 2 then pos else pos - TWO32 }

  /** What is printed so far and the rest of the rendering make the whole text. */
  ghost predicate Rest(text: Bytes, fmt: Bytes, args: seq<Arg>, whole: Bytes) {
    Matches(fmt, args) && text + Render(fmt, args) == whole
  }

  lemma RestPlain(text: Bytes, fmt: Bytes, args: seq<Arg>, whole: Bytes)
    requires Rest(text, fmt, args, whole) && fmt != [] && fmt[0] != PERCENT
    ensures Rest(text + [fmt[0]], fmt[1..], args, whole)
  {
    assert text + [fmt[0]] + Render(fmt[1..], args) == text + Render(fmt, args);
  }

  lemma RestLonePercent(text: Bytes, fmt: Bytes, args: seq<Arg>, whole: Bytes)
    requires Rest(text, fmt, args, whole) && fmt == [PERCENT]
    ensures Rest(text, [], args, whole)
  {
  }

  lemma RestDirective(text: Bytes, fmt: Bytes, args: seq<Arg>, whole: Bytes)
    requires Rest(text, fmt, args, whole) && |fmt| > 1 && fmt[0] == PERCENT && TakesArg(fmt[1])
    ensures args != [] && LetterOf(args[0]) == fmt[1] && Rest(text + TextOf(args[0]), fmt[2..], args[1..], whole)
  {
    hide TextOf, LetterOf;
    assert text + TextOf(args[0]) + Render(fmt[2..], args[1..]) == text + Render(fmt, args);
  }

  lemma RestOther(text: Bytes, fmt: Bytes, args: seq<Arg>, whole: Bytes)
    requires Rest(text, fmt, args, whole) && |fmt| > 1 && fmt[0] == PERCENT && !TakesArg(fmt[1])
    ensures Rest(text + if fmt[1] == PERCENT then [PERCENT] else [PERCENT, fmt[1]], fmt[2..], args, whole)
  {
    hide TextOf, LetterOf;
    var piece := if fmt[1] == PERCENT then [PERCENT] else [PERCENT, fmt[1]];
    assert text + piece + Render(fmt[2..], args) == text + Render(fmt, args);
  }

  lemma RestEnds(text: Bytes, args: seq<Arg>, whole: Bytes)
    requires Rest(text, [], args, whole)
    ensures text == whole
  {
    assert text + [] == text;
  }

  lemma Ended(before: Bytes, text: Bytes, n: nat)
    requires 0 < n <= |before|
    ensures
      var shown := Min(|text|, n - 1);
      Holding(before, text, n)[shown := 0] == text[..shown] + [0] + before[shown + 1..]
  {
  }

  /**
   Prints every format: the first min(L, n - 1) characters, one NUL, the rest of the buffer untouched.
   The result is L when L is below 2^31, negative otherwise. None where a character is written outside the
   n bytes, which happens exactly when L reaches 2^32.
   */
  method Snprintf(s: array?<byte>, n: u32, fmt: Option<CString>, args: seq<Arg>) returns (r: Option<int>)
    requires s != null ==> n <= s.Length
    requires fmt.Some? ==> Matches(fmt.value, args)
    modifies if s == null then {} else {s}
    ensures s == null || n == 0 || fmt.None? ==> r == Some(0) && (s != null ==> s[..] == old(s[..]))
    ensures s != null && n != 0 && fmt.Some? ==>
      var text := Render(fmt.value, args);
      var shown := Min(|text|, n - 1);
      if |text| < TWO32
      then r == Some(if |text| < 0x8000_0000 then |text| else |text| - 0x1_0000_0000) && s[..] == text[..shown] + [0] + old(s[..])[shown + 1..]
      else r == None
  {
    hide Render, Matches, TextOf, Decimal, Hex, Holding;
    if s == null || n == 0 || fmt.None? { return Some(0); }
    var f: Bytes := fmt.value;
    ghost var whole := Render(f, args);
    ghost var start := s[..];
    var w := new Writer(s, n);
    var i, ap := 0, args;
    assert f[0..] == f && [] + whole == whole;
    while i < |f|
      invariant 0 <= i <= |f|
      invariant w.Valid() && w.s == s && w.n == n && w.before == start && fresh(w)
      invariant Rest(w.text, f[i..], ap, whole)
    {
      ghost var rest := f[i..];
      assert rest[0] == f[i] && rest[1..] == f[i + 1..];
      ghost var was := w.text;
      if f[i] != PERCENT {
        RestPlain(w.text, rest, ap, whole);
        w.WriteChar(f[i]);
        i := i + 1;
        continue;
      }
      i := i + 1;
      if i == |f| {
        RestLonePercent(w.text, rest, ap, whole);
        break;
      }
      assert rest[1] == f[i] && rest[2..] == f[i + 1..];
      if TakesArg(f[i]) {
        RestDirective(w.text, rest, ap, whole);
        WriteArg(w, ap[0]);
        ap := ap[1..];
      } else if f[i] == PERCENT {
        RestOther(w.text, rest, ap, whole);
        w.WriteChar(PERCENT);
      } else {
        RestOther(w.text, rest, ap, whole);
        w.WriteChar(PERCENT);
        w.WriteChar(f[i]);
        assert was + [PERCENT] + [f[i]] == was + [PERCENT, f[i]];
      }
      i := i + 1;
    }
    assert f[i..] == [] && Rest(w.text, [], ap, whole);
    RestEnds(w.text, ap, whole);
    if w.strayed { return None; }
    Ended(start, whole, n);
    var outPos: nat := w.pos;
    if outPos >= n { outPos := n - 1; }
    ghost var held := s[..];
    s[outPos] := 0;
    assert s[..] == held[outPos := 0];
    r := Some(ToInt(w.pos));
  }

  /** One directive with an argument. */
  method WriteArg(w: Writer, c: Arg)
    requires w.Valid()
    modifies w, w.s
    ensures w.Valid() && w.text == old(w.text) + TextOf(c)
  {
    hide Decimal, Hex;
    match c
    case UInt(v) => w.WriteU32Dec(v);
    case Ptr(p) =>
      var prefix: CString := HEX_PREFIX;
      w.WriteStr(Some(prefix));
      ghost var was := w.text;
      w.WritePtrHex(p);
      assert old(w.text) + HEX_PREFIX + Hex(p) == old(w.text) + (HEX_PREFIX + Hex(p));
    case Chars(text) => w.WriteStr(text);
  }
}
