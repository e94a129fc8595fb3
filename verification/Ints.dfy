// Machine integers of the source, with the saturating arithmetic it relies on.
module Ints {
  const I32_MIN: int := -0x8000_0000
  const I32_MAX: int := 0x7FFF_FFFF
  const U16_MAX: int := 0xFFFF
  const U32_MAX: int := 0xFFFF_FFFF
  const U64_MAX: int := 0xFFFF_FFFF_FFFF_FFFF

  type i32 = x: int | I32_MIN <= x <= I32_MAX witness 0
  type u16 = x: int | 0 <= x <= U16_MAX witness 0
  type u32 = x: int | 0 <= x <= U32_MAX witness 0
  type u64 = x: int | 0 <= x <= U64_MAX witness 0
  type byte = x: int | 0 <= x < 256 witness 0

  function Saturate(x: int): i32 {
    if x < I32_MIN then I32_MIN else if x > I32_MAX then I32_MAX else x
  }

  // i32::saturating_add and i32::saturating_sub.
  function SatAdd(a: i32, b: i32): i32 { Saturate(a + b) }

  function SatSub(a: i32, b: i32): i32 { Saturate(a - b) }
}
