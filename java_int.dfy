/** Java's fixed-width integers and the wrap-around of their arithmetic. */
module JavaInt {

  const TWO_31: int := 0x8000_0000
  const TWO_32: int := 0x1_0000_0000

  /** Java `int` */
  type int32 = x: int | -TWO_31 <= x < TWO_31

  /** Java `long` */
  type int64 = x: int | -0x8000_0000_0000_0000 <= x < 0x8000_0000_0000_0000

  /** Two's-complement truncation to 32 bits: the value of an `int` expression whose exact
      result is `x`, and of the cast `(int) x` from a `long`. */
  function Wrap32(x: int): (r: int32)
    ensures (r - x) % TWO_32 == 0
    ensures -TWO_31 <= x < TWO_31 ==> r == x
  {
    var m := x % TWO_32;
    if m < TWO_31 then m else m - TWO_32
  }

  /** Truncation ignores whole multiples of 2^32. */
  lemma Wrap32Periodic(x: int)
    ensures Wrap32(x + TWO_32) == Wrap32(x)
  {
    assert (x + TWO_32) % TWO_32 == x % TWO_32;
  }

  /** `Math.min(a, b)` */
  function Min(a: int, b: int): (r: int)
    ensures r <= a && r <= b && (r == a || r == b)
  {
    if a <= b then a else b
  }
}
