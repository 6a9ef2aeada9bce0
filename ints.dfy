/** Java's fixed-width integers, as far as the two panic actions depend on them. */
module Ints {

  const MIN_INT: int := -0x8000_0000
  const MAX_INT: int := 0x7FFF_FFFF
  const MIN_LONG: int := -0x8000_0000_0000_0000
  const MAX_LONG: int := 0x7FFF_FFFF_FFFF_FFFF

  /** A Java `int` (also an unboxed `Integer`). */
  type Int32 = x: int | MIN_INT <= x <= MAX_INT

  /** A Java `long`. */
  type Int64 = x: int | MIN_LONG <= x <= MAX_LONG

  /** Java's unary minus on `int`: it wraps, so `-Integer.MIN_VALUE == Integer.MIN_VALUE`. */
  function Negate32(x: Int32): (r: Int32)
    ensures x != MIN_INT ==> r == -x
    ensures x == MIN_INT ==> r == MIN_INT
    ensures (x + r) % 0x1_0000_0000 == 0
  {
    if x == MIN_INT then MIN_INT else -x
  }

  /** Negate32 is its own inverse, so it is a bijection on Int32. */
  lemma Negate32Involution(x: Int32)
    ensures Negate32(Negate32(x)) == x
  {
  }

  /** `Long.valueOf(x).intValue()`: keep the low 32 bits, read them as a signed `int`. */
  function LongToInt(x: Int64): (r: Int32)
    ensures MIN_INT <= x <= MAX_INT ==> r == x
    ensures (x - r) % 0x1_0000_0000 == 0
  {
    (x + 0x8000_0000) % 0x1_0000_0000 - 0x8000_0000
  }
}
