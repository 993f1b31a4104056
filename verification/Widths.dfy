/** The fixed-width integers of the source, as subset types: a value assigned to
    one of them is proved to fit, so nothing wraps or truncates. */
module Widths {

  const U16_MAX := 0xFFFF
  const U32_MAX := 0xFFFF_FFFF
  const I32_MAX := 0x7FFF_FFFF

  type Byte = x: int | 0 <= x <= 0xFF
  type U16 = x: int | 0 <= x <= 0xFFFF
  type U32 = x: int | 0 <= x <= 0xFFFF_FFFF
  type I32 = x: int | -0x8000_0000 <= x <= 0x7FFF_FFFF

  /** `u16::saturating_add`. */
  function SatAdd(a: U16, b: U16): U16 {
    if a + b <= U16_MAX then a + b else U16_MAX
  }

  /** `u16::saturating_mul`. */
  function SatMul(a: U16, b: U16): U16 {
    if 0 <= a * b <= U16_MAX then a * b else U16_MAX
  }

  /** `saturating_sub` of any unsigned width. */
  function SatSub(a: nat, b: nat): nat {
    if a >= b then a - b else 0
  }

  function Max(a: int, b: int): int {
    if a >= b then a else b
  }

  function Min(a: int, b: int): int {
    if a <= b then a else b
  }

  /** `Ord::clamp`, for `lo <= hi`. */
  function Clamp(x: int, lo: int, hi: int): int {
    if x < lo then lo else if x > hi then hi else x
  }
}

/** Options, for the source's `Option`. */
module Options {
  datatype Option<+T> = None | Some(value: T)
}
