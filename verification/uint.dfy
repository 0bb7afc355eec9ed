/**
 * Rust's `u64` and the two places where the backend's arithmetic can leave its range:
 * the subtraction in `file_systems` and the iterator sums in `get_metrics`.
 * Both are modelled as in a release build, where overflow checks are off and the
 * result wraps modulo 2^64.
 */
module Uint {
  const U64_MODULUS: int := 0x1_0000_0000_0000_0000

  type U64 = x: int | 0 <= x < U64_MODULUS

  /** `a - b` on `u64` with overflow checks off. */
  function WrappingSub(a: U64, b: U64): (r: U64)
    ensures (r + b) % U64_MODULUS == a
    ensures b <= a ==> r == a - b
    ensures a < b ==> r > a
  {
    if b <= a then a - b else a - b + U64_MODULUS
  }

  /** `a + b` on `u64` with overflow checks off. */
  function WrappingAdd(a: U64, b: U64): (r: U64)
    ensures r == (a + b) % U64_MODULUS
    ensures a + b < U64_MODULUS ==> r == a + b
  {
    if a + b < U64_MODULUS then a + b else a + b - U64_MODULUS
  }
}
