/** Machine integers: bytes, ranges and the conversions that C++ makes between them. */
module Words {
  const TWO32: nat := 0x1_0000_0000
  const TWO64: nat := 0x1_0000_0000_0000_0000
  const INT32_MAX: int := 0x7FFF_FFFF
  const INT64_MAX: int := 0x7FFF_FFFF_FFFF_FFFF
  const INT64_MIN: int := -0x8000_0000_0000_0000

  type Byte = b: int | 0 <= b < 0x100

  function Min(a: int, b: int): int {
    if a < b then a else b
  }

  function Max(a: int, b: int): int {
    if a < b then b else a
  }

  predicate IsI64(x: int) {
    INT64_MIN <= x <= INT64_MAX
  }

  /** Conversion to an unsigned 64-bit word, also of a sum or difference of such words. */
  function ToU64(x: int): (r: nat)
    ensures 0 <= x < TWO64 ==> r == x
    ensures -(TWO64 as int) <= x < 0 ==> r as int == x + TWO64
    ensures TWO64 <= x < 2 * TWO64 ==> r == x - TWO64
    ensures r < TWO64
  {
    x % TWO64
  }

  /** Conversion to a signed 64-bit word. */
  function ToI64(x: nat): int {
    var r := x % TWO64;
    if r <= INT64_MAX then r else r as int - TWO64
  }

  /** Conversion to a signed 32-bit word. */
  function ToI32(x: nat): int {
    var r := x % TWO32;
    if r <= INT32_MAX then r else r as int - TWO32
  }
}
