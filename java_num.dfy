// Java's fixed-width integer arithmetic, written out over Dafny's unbounded
// integers: truncating division, the (long)/(int) casts of a double, and
// two's-complement wrap-around.

module JavaNum {

  const LONG_MIN: int := -0x8000_0000_0000_0000
  const LONG_MAX: int := 0x7FFF_FFFF_FFFF_FFFF
  const INT_MIN: int := -0x8000_0000
  const INT_MAX: int := 0x7FFF_FFFF

  predicate InLongRange(x: int) { LONG_MIN <= x <= LONG_MAX }
  predicate InIntRange(x: int) { INT_MIN <= x <= INT_MAX }

  function Max(a: int, b: int): (r: int)
    ensures r >= a && r >= b && (r == a || r == b)
  {
    if a >= b then a else b
  }

  function Min(a: int, b: int): (r: int)
    ensures r <= a && r <= b && (r == a || r == b)
  {
    if a <= b then a else b
  }

  /** Java's `/` on integers: the quotient is truncated toward zero. */
  function JavaDiv(a: int, b: int): (q: int)
    requires b != 0
    ensures a >= 0 && b > 0 ==> q == a / b
    ensures (a >= 0) == (b > 0) || q <= 0
    ensures (a >= 0) == (b > 0) ==> q >= 0
  {
    if b > 0 then
      (if a >= 0 then a / b else -((-a) / b))
    else
      (if a >= 0 then -(a / (-b)) else (-a) / (-b))
  }

  function Abs(a: int): (r: nat)
    ensures r == a || r == -a
  {
    if a < 0 then -a else a
  }

  /** The cast `(long) d` of a double: truncation toward zero (saturation at the
      long range is not modelled). */
  function TruncToInt(x: real): (r: int)
    ensures x >= 0.0 ==> r == x.Floor
    ensures r as real <= x < r as real + 1.0 || r as real - 1.0 < x <= r as real
    ensures Abs(r) as real <= (if x < 0.0 then -x else x)
  {
    if x >= 0.0 then x.Floor else -((-x).Floor)
  }

  /** Two's-complement wrap-around of an arbitrary integer into 64 bits. */
  function Wrap64(x: int): (r: int)
    ensures InLongRange(r)
    ensures InLongRange(x) ==> r == x
  {
    (x - LONG_MIN) % 0x1_0000_0000_0000_0000 + LONG_MIN
  }

  /** Two's-complement wrap-around into 32 bits: the cast `(int)` of a long. */
  function Wrap32(x: int): (r: int)
    ensures InIntRange(r)
    ensures InIntRange(x) ==> r == x
  {
    (x - INT_MIN) % 0x1_0000_0000 + INT_MIN
  }
}
