/** Fixed-width unsigned integers of the host language and the
    saturating / checked arithmetic the contracts use on them. */
module Uint {
  import opened Wrappers

  const U128_LIMIT: int := 0x1_0000_0000_0000_0000_0000_0000_0000_0000
  const U128_MAX: int := U128_LIMIT - 1

  type u8 = x: int | 0 <= x < 256
  type u128 = x: int | 0 <= x < U128_LIMIT

  /** `u128::saturating_add` */
  function SatAdd(a: u128, b: u128): (r: u128)
    ensures a + b <= U128_MAX ==> r == a + b
    ensures a + b > U128_MAX ==> r == U128_MAX
  {
    if a + b <= U128_MAX then a + b else U128_MAX
  }

  /** `u128::saturating_sub` */
  function SatSub(a: u128, b: u128): (r: u128)
    ensures b <= a ==> r == a - b
    ensures a < b ==> r == 0
  {
    if b <= a then a - b else 0
  }

  /** `u128::saturating_mul` (the second operand may be a widened u64) */
  function SatMul(a: nat, b: nat): (r: u128)
    ensures a * b <= U128_MAX ==> r == a * b
    ensures a * b > U128_MAX ==> r == U128_MAX
  {
    if a * b <= U128_MAX then a * b else U128_MAX
  }

  /** `u128::checked_add` */
  function CheckedAdd(a: u128, b: u128): (r: Option<u128>)
    ensures r.Some? <==> a + b <= U128_MAX
    ensures r.Some? ==> r.value == a + b
  {
    if a + b <= U128_MAX then Some(a + b) else None
  }

  /** `u128::checked_sub` */
  function CheckedSub(a: u128, b: u128): (r: Option<u128>)
    ensures r.Some? <==> b <= a
    ensures r.Some? ==> r.value == a - b
  {
    if b <= a then Some(a - b) else None
  }

  function Min(a: int, b: int): (r: int)
    ensures r <= a && r <= b && (r == a || r == b)
  {
    if a <= b then a else b
  }
}
