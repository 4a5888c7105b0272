/** Flag values of the two capability enums, and the 32-bit integer helpers
    the generator relies on.

    A value of a C# `[Flags]` enum over `int` is modelled exactly by the set
    of the bit positions (0..31) that are set in it: `a | b` is `a + b`,
    `a & b` is `a * b`, and `Enum.HasFlag(f)` is `(x & f) == f`, i.e. `f <= x`. */
module Bits {

  /** A bit position of a 32-bit integer. */
  type Bit = b: nat | b < 32

  type Flags = set<Bit>

  /** `Enum.HasFlag`: every bit of `f` is set in `x`, so a composite value
      needs all of its bits and the zero value is always present. */
  predicate HasFlag(x: Flags, f: Flags)
  {
    f <= x
  }

  /** Bits 0..k-1, i.e. the value `(1 << k) - 1`. */
  function LowBits(k: nat): (s: Flags)
    requires k <= 32
    ensures forall b: Bit :: b in s <==> b < k
  {
    if k == 0 then {} else LowBits(k - 1) + {k - 1}
  }

  /** `int.MaxValue`: bits 0..30. */
  const IntMaxValue: Flags := LowBits(31)

  /** The range of a C# `int`. */
  newtype int32 = x: int | -0x8000_0000 <= x < 0x8000_0000

  const TwoTo32: int := 0x1_0000_0000

  /** Two's-complement wrap-around of an unbounded integer into `int32`,
      which is what `unchecked` arithmetic does. */
  function Wrap32(x: int): (r: int32)
    ensures (r as int - x) % TwoTo32 == 0
    ensures -0x8000_0000 <= x < 0x8000_0000 ==> r as int == x
  {
    var m := (x + 0x8000_0000) % TwoTo32;
    (m - 0x8000_0000) as int32
  }
}
