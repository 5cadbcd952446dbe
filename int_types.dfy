/**
 * Fixed-width integer types of the hook's C source and the wasm target it
 * is compiled for. Integers in Dafny are unbounded, so each width is a subset
 * type of `int`, and the one addition whose width matters (the sum of two
 * 64-bit drop amounts) is written out with its two's-complement wrap-around.
 */
module IntTypes {

  const TWO_TO_THE_63: int := 0x8000_0000_0000_0000
  const TWO_TO_THE_64: int := 0x1_0000_0000_0000_0000

  /** An `uint8_t` / `unsigned char`. */
  type byte = x: int | 0 <= x < 0x100

  /** An `uint32_t`. */
  type uint32 = x: int | 0 <= x < 0x1_0000_0000

  /** An `int32_t`. */
  type int32 = x: int | -0x8000_0000 <= x < 0x8000_0000

  /** An `int64_t`. */
  type int64 = x: int | -0x8000_0000_0000_0000 <= x < 0x8000_0000_0000_0000

  predicate InInt64Range(x: int) {
    -TWO_TO_THE_63 <= x < TWO_TO_THE_63
  }

  /**
   * The `int64_t` sum `a + b` as the wasm `i64.add` instruction computes it:
   * the mathematical sum reduced modulo 2^64 into the signed range. (In C a
   * signed overflow is undefined; the compiled hook wraps.)
   */
  function Add64(a: int64, b: int64): (r: int64)
    ensures (r - (a + b)) % TWO_TO_THE_64 == 0
    ensures InInt64Range(a + b) ==> r == a + b
    ensures !InInt64Range(a + b) ==> r != a + b
  {
    var s := a + b;
    if s >= TWO_TO_THE_63 then s - TWO_TO_THE_64
    else if s < -TWO_TO_THE_63 then s + TWO_TO_THE_64
    else s
  }

  /** Two non-negative amounts below 2^62 (the width of a native XRP amount) never wrap. */
  lemma NativeSumDoesNotWrap(a: int64, b: int64)
    requires 0 <= a < 0x4000_0000_0000_0000 && 0 <= b < 0x4000_0000_0000_0000
    ensures Add64(a, b) == a + b
  {
  }
}
