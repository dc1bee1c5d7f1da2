/**
 Machine words: 32-bit wrapping arithmetic, bitwise "and" on naturals, and the
 mask form of rounding up to an alignment.
 */
module Words {
  const TWO32: int := 0x1_0000_0000

  type u32 = x: int | 0 <= x < TWO32
  type byte = x: int | 0 <= x < 256

  const TWO64: int := 0x1_0000_0000_0000_0000

  type u64 = x: int | 0 <= x < TWO64

  datatype Option<+T> = None | Some(value: T)

  function Add32(x: u32, y: u32): u32 { if x + y < TWO32 then x + y else x + y - TWO32 }
  function Sub32(x: u32, y: u32): u32 { if x >= y then x - y else x - y + TWO32 }

  /** The bytes of an ASCII literal. */
  function Ascii(s: string): (b: seq<byte>)
    ensures |b| == |s|
  {
    seq(|s|, i requires 0 <= i < |s| => s[i] as int % 256)
  }

  function Pow2(k: nat): (p: nat)
    ensures p > 0
  {
    if k == 0 then 1 else 2 * Pow2(k - 1)
  }

  ghost predicate IsPow2(a: int) { exists k: nat :: a == Pow2(k) }

  /** Bitwise "and" of two naturals, one binary digit at a time. */
  function BitAnd(x: nat, y: nat): (r: nat)
    ensures r <= x && r <= y
  {
    if x == 0 || y == 0 then 0
    else 2 * BitAnd(x / 2, y / 2) + (x % 2) * (y % 2)
  }

  lemma {:induction false} AndAllOnes(x: nat, w: nat)
    requires x < Pow2(w)
    ensures BitAnd(x, Pow2(w) - 1) == x
  {
    if x != 0 {
      var y := Pow2(w) - 1;
      assert y == 2 * (Pow2(w - 1) - 1) + 1;
      assert y / 2 == Pow2(w - 1) - 1 && y % 2 == 1;
      AndAllOnes(x / 2, w - 1);
    }
  }

  lemma ModHalves(x: nat, k: nat)
    requires k > 0
    ensures x % Pow2(k) == 2 * ((x / 2) % Pow2(k - 1)) + x % 2
  {
    var p := Pow2(k - 1);
    var q, r := (x / 2) / p, (x / 2) % p;
    assert x / 2 == q * p + r;
    assert x == q * (2 * p) + (2 * r + x % 2);
    assert 0 <= 2 * r + x % 2 < 2 * p;
    DivModUnique(x, 2 * p, q, 2 * r + x % 2);
  }

  lemma DivModUnique(x: nat, d: nat, q: int, r: nat)
    requires d > 0 && x == q * d + r && r < d
    ensures x / d == q && x % d == r
  {
    var e := x / d - q;
    assert x == (x / d) * d + x % d;
    assert e * d == r - x % d;
    MultipleInRange(e, d);
  }

  lemma AndEven(x: nat, h: nat)
    ensures BitAnd(x, 2 * h) == 2 * BitAnd(x / 2, h)
  {
    assert (2 * h) / 2 == h && (2 * h) % 2 == 0;
  }

  lemma MultipleInRange(e: int, d: int)
    requires d > 0 && -d < e * d < d
    ensures e == 0
  {
    assert e == (e * d) / d;
  }

  /** The number written by the k lowest binary digits of x. */
  function LowBits(x: nat, k: nat): nat {
    if k == 0 then 0 else 2 * LowBits(x / 2, k - 1) + x % 2
  }

  lemma {:induction false} LowBitsAreRemainder(x: nat, k: nat)
    ensures LowBits(x, k) == x % Pow2(k)
  {
    if k > 0 {
      LowBitsAreRemainder(x / 2, k - 1);
      ModHalves(x, k);
    }
  }

  /** Masking with the two's complement of 2^k clears the low k binary digits. */
  lemma {:induction false} AndClearsLowBits(x: nat, k: nat, w: nat)
    requires x < Pow2(w) && k <= w
    ensures Pow2(k) <= Pow2(w)
    ensures BitAnd(x, Pow2(w) - Pow2(k)) == x - LowBits(x, k)
    decreases k
  {
    if k == 0 {
      AndAllOnes(x, w);
    } else {
      AndClearsLowBits(x / 2, k - 1, w - 1);
      AndEven(x, Pow2(w - 1) - Pow2(k - 1));
    }
  }

  lemma Pow2Monotone(j: nat, k: nat)
    requires j <= k
    ensures Pow2(j) <= Pow2(k)
  {
    if j < k { Pow2Monotone(j, k - 1); }
  }

  lemma Pow2Of32()
    ensures Pow2(32) == TWO32
  {
    assert Pow2(8) == 256;
    assert Pow2(16) == 0x1_0000;
    assert Pow2(24) == 0x100_0000;
  }

  /** Rounding up as the glue computes it, on wrapping words. */
  function AlignUp(x: u32, align: u32): u32 {
    if align <= 1 then x else BitAnd(Add32(x, Sub32(align, 1)), Sub32(0, align))
  }

  /** What rounding up means: the least multiple of `align` that is not below x. */
  ghost predicate IsRoundUp(x: int, align: int, r: int)
    requires align > 0
  {
    x <= r < x + align && r % align == 0
  }

  lemma AlignUpMeaning(x: u32, align: u32)
    requires IsPow2(align) && x + align - 1 < TWO32
    ensures IsRoundUp(x, align, AlignUp(x, align))
  {
    if align > 1 {
      Pow2Of32();
      AlignUpIsMask(x, align);
      MaskRoundsDown(x + align - 1, align, 32);
    }
  }

  lemma AlignUpIsMask(x: u32, align: u32)
    requires align > 1 && x + align - 1 < TWO32
    ensures AlignUp(x, align) == BitAnd(x + align - 1, TWO32 - align)
  {
    assert Sub32(0, align) == TWO32 - align;
  }

  lemma MaskRoundsDown(y: nat, align: nat, w: nat)
    requires IsPow2(align) && y < Pow2(w) && align <= Pow2(w)
    ensures y - align < BitAnd(y, Pow2(w) - align) <= y
    ensures BitAnd(y, Pow2(w) - align) % align == 0
  {
    var k: nat :| align == Pow2(k);
    if k > w { Pow2Strict(w, k); }
    AndClearsLowBits(y, k, w);
    LowBitsAreRemainder(y, k);
    MultipleBelow(y, align);
  }

  lemma Pow2Strict(j: nat, k: nat)
    requires j < k
    ensures Pow2(j) < Pow2(k)
  {
    Pow2Monotone(j, k - 1);
  }

  lemma MultipleBelow(y: nat, d: nat)
    requires d > 0
    ensures (y - y % d) % d == 0 && y - d < y - y % d <= y
  {
    var q := y / d;
    assert y - y % d == q * d;
    DivModUnique(q * d, d, q, 0);
  }
}
