/** Fixed-point arithmetic of internal/core/decimal/decimal.go.

    An amount is an integer count of units of 10^-18. `Add` and a non-negative
    subtraction are then exact, and only `Mul` rounds: the printer keeps 18
    fractional digits and rounds a half away from zero.
 */
module Decimal {

  const UNIT: int := 1_000_000_000_000_000_000

  /** The numerator of a product (in units squared) rounded to whole units, a half away from zero. */
  function RoundHalfAway(n: int): int {
    if n >= 0 then (2 * n + UNIT) / (2 * UNIT) else -((-2 * n + UNIT) / (2 * UNIT))
  }

  function Mul(x: int, y: int): int {
    RoundHalfAway(x * y)
  }

  function Min(x: int, y: int): (r: int)
    ensures r <= x && r <= y && (r == x || r == y)
  {
    if x <= y then x else y
  }

  function SubFloorZero(x: int, y: int): (r: int)
    ensures r >= 0 && r >= x - y && (r == 0 || r == x - y)
  {
    if x < y then 0 else x - y
  }

  /** A product that 18 fractional digits hold without rounding. */
  predicate Representable(x: int, y: int) {
    x * y % UNIT == 0
  }

  /** Nearest multiple: the rounded value is within half a unit of the exact one, and a tie moves away from zero. */
  lemma RoundNearest(n: int)
    ensures -UNIT <= 2 * (UNIT * RoundHalfAway(n) - n) <= UNIT
    ensures 2 * (UNIT * RoundHalfAway(n) - n) == UNIT ==> n > 0
    ensures 2 * (UNIT * RoundHalfAway(n) - n) == -UNIT ==> n < 0
  {
    var m := if n >= 0 then n else -n;
    var q := (2 * m + UNIT) / (2 * UNIT);
    assert 2 * m + UNIT == 2 * UNIT * q + (2 * m + UNIT) % (2 * UNIT);
  }

  /** The nearest-multiple property determines the rounding completely. */
  lemma RoundUnique(n: int, r: int)
    requires -UNIT <= 2 * (UNIT * r - n) <= UNIT
    requires 2 * (UNIT * r - n) == UNIT ==> n > 0
    requires 2 * (UNIT * r - n) == -UNIT ==> n < 0
    ensures r == RoundHalfAway(n)
  {
    RoundNearest(n);
  }

  lemma RoundMonotone(m: int, n: int)
    requires m <= n
    ensures RoundHalfAway(m) <= RoundHalfAway(n)
  {
    RoundNearest(m);
    RoundNearest(n);
  }

  /** At one quantity a better price never costs more, rounding included. */
  lemma MulMonotone(q: int, p: int, limit: int)
    requires q >= 0 && p <= limit
    ensures Mul(q, p) <= Mul(q, limit)
  {
    assert q * p <= q * limit;
    RoundMonotone(q * p, q * limit);
  }

  /** A product survives the 18 digits exactly when it reaches half a unit. */
  lemma MulPositiveIff(x: int, y: int)
    ensures Mul(x, y) > 0 <==> 2 * (x * y) >= UNIT
  {
    RoundNearest(x * y);
  }

  lemma MulExactIff(x: int, y: int)
    ensures UNIT * Mul(x, y) == x * y <==> Representable(x, y)
  {
    var n := x * y;
    RoundNearest(n);
    if n % UNIT == 0 {
      assert n == UNIT * (n / UNIT);
      RoundUnique(n, n / UNIT);
    } else if UNIT * Mul(x, y) == n {
      MultipleHasNoRemainder(Mul(x, y));
    }
  }

  lemma MultipleHasNoRemainder(k: int)
    ensures UNIT * k % UNIT == 0
  {
  }
}
