/** The 64-bit integers. */
module Integers {

  const MIN_INT64 := -0x8000_0000_0000_0000
  const MAX_INT64 := 0x7fff_ffff_ffff_ffff

  type Int64 = x: int | MIN_INT64 <= x <= MAX_INT64 witness 0

  predicate Fits(x: int) {
    MIN_INT64 <= x <= MAX_INT64
  }
}
