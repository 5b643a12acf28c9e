/** Fixed-width integer facts of C++ that the library relies on. */
module Arith {

  const INT32_MIN: int := -0x8000_0000
  const INT32_MAX: int := 0x7fff_ffff
  const INT64_MIN: int := -0x8000_0000_0000_0000
  const INT64_MAX: int := 0x7fff_ffff_ffff_ffff

  /** The value fits a C++ `int`. */
  predicate IsInt32(x: int) { INT32_MIN <= x <= INT32_MAX }

  /** The value fits a `std::int64_t`. */
  predicate IsInt64(x: int) { INT64_MIN <= x <= INT64_MAX }

  /** C++ `a / b` for a positive divisor: the quotient rounded toward zero
      (Dafny's own `/` rounds toward negative infinity for a negative `a`). */
  function Quot(a: int, b: int): (q: int)
    requires b > 0
    ensures 0 <= a ==> q * b <= a < q * b + b
    ensures a < 0 ==> q * b - b < a <= q * b
  {
    if a >= 0 then a / b else -((-a) / b)
  }

  /** -1, 0 or 1 according to the sign of `x`. */
  function Sign(x: int): (r: int)
    ensures r == -1 || r == 0 || r == 1
    ensures (r < 0 <==> x < 0) && (r == 0 <==> x == 0) && (r > 0 <==> x > 0)
  {
    if x > 0 then 1 else if x < 0 then -1 else 0
  }
}
