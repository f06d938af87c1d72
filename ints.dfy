/** The fixed-width Rust integer types the modelled code uses, as ranges of `int`.
    Arithmetic that would leave a range panics in a debug build, so each
    operation that can overflow carries a precondition saying it does not. */
module Ints {

  const I32_MIN: int := -0x8000_0000
  const I32_MAX: int := 0x7FFF_FFFF
  const U8_LIMIT: int := 0x100
  const U32_LIMIT: int := 0x1_0000_0000
  const U64_LIMIT: int := 0x1_0000_0000_0000_0000

  type I32 = x: int | I32_MIN <= x <= I32_MAX
  type U8 = x: int | 0 <= x < U8_LIMIT
  type U32 = x: int | 0 <= x < U32_LIMIT
  type U64 = x: int | 0 <= x < U64_LIMIT
  /** `usize` on a 64-bit target. */
  type USize = U64
}
