/** Rounding of real numbers and wrap-around of 64-bit integers. */
module Rounding {

  const MAX_INT64: int := 0x7FFF_FFFF_FFFF_FFFF
  const TWO_TO_THE_64: int := 0x1_0000_0000_0000_0000

  function Ceil(x: real): (c: int)
    ensures c as real - 1.0 < x <= c as real
  {
    -((-x).Floor)
  }

  function Max(x: int, y: int): int {
    if x < y then y else x
  }

  function MinReal(x: real, y: real): real {
    if x < y then x else y
  }

  /** The value a signed 64-bit register holds after computing `x`. */
  function WrapInt64(x: int): (w: int)
    ensures -MAX_INT64 - 1 <= w <= MAX_INT64
    ensures -MAX_INT64 - 1 <= x <= MAX_INT64 ==> w == x
    ensures (w - x) % TWO_TO_THE_64 == 0
  {
    var low := x % TWO_TO_THE_64;
    if low > MAX_INT64 then low - TWO_TO_THE_64 else low
  }

  /** An integer is at least the ceiling of `x` exactly when it is at least `x`. */
  lemma CeilIsLeast(x: real, n: int)
    ensures n >= Ceil(x) <==> n as real >= x
  {
  }

  lemma ScaleUp(x: real, y: real, k: real)
    requires k > 0.0
    ensures x <= y ==> x * k <= y * k
    ensures x < y ==> x * k < y * k
  {
    assert (y - x) * k == y * k - x * k;
    if x < y {
      assert (y - x) * k > 0.0;
    }
  }

  /** Rounding up to whole millions of a unit overshoots rounding up to the unit by less than a million. */
  lemma CeilOfMillions(x: real)
    ensures Ceil(x) * 1_000_000 >= Ceil(x * 1_000_000.0) > (Ceil(x) - 1) * 1_000_000
  {
    var c, scaled := Ceil(x), x * 1_000_000.0;
    assert ((c - 1) * 1_000_000) as real < scaled <= (c * 1_000_000) as real;
  }
}
