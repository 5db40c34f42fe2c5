/** Fixed-width integers of the NEAR host and saturating currency arithmetic. */
module Primitives {

  const U64_MAX: int := 0xffff_ffff_ffff_ffff
  const U128_MAX: int := 0xffff_ffff_ffff_ffff_ffff_ffff_ffff_ffff

  newtype U8 = x: int | 0 <= x < 0x100
  newtype U64 = x: int | 0 <= x <= U64_MAX
  newtype U128 = x: int | 0 <= x <= U128_MAX

  /** An amount of yoctoNEAR: the host's NearToken, a u128 whose arithmetic
      here only ever saturates. */
  newtype NearToken = x: int | 0 <= x <= U128_MAX

  function Min(a: int, b: int): int { if a <= b then a else b }

  function Max(a: int, b: int): int { if a <= b then b else a }

  /** saturating_add: the exact sum, or the ceiling when the sum does not fit. */
  function SaturatingAdd(a: NearToken, b: NearToken): (r: NearToken)
    ensures a <= r && b <= r
    ensures r as int <= a as int + b as int
    ensures r as int < a as int + b as int ==> r as int == U128_MAX
  {
    var sum := a as int + b as int;
    if sum <= U128_MAX then sum as NearToken else U128_MAX as NearToken
  }

  /** saturating_sub: the exact difference, or zero when it would go negative. */
  function SaturatingSub(a: NearToken, b: NearToken): (r: NearToken)
    ensures r <= a
    ensures a as int - b as int <= r as int
    ensures a as int - b as int < r as int ==> r == 0
  {
    if b <= a then a - b else 0
  }

  /** saturating_mul by a byte count (a u128 in the source, converted losslessly
      from a usize or u64): the exact product, or the ceiling. */
  function SaturatingMul(a: NearToken, n: nat): (r: NearToken)
    ensures r as int <= a as int * n
    ensures r as int < a as int * n ==> r as int == U128_MAX
    ensures n > 0 ==> a <= r
  {
    var product := a as int * n;
    if product <= U128_MAX then product as NearToken else U128_MAX as NearToken
  }
}
