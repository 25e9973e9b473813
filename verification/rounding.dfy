/**
 * Python 2's `round` on exact reals: the nearest integer, with ties
 * rounded away from zero, followed by the `int(...)` conversion the
 * source applies to it.
 */
module Rounding {

  /** Python 2 `round`, converted to an integer. */
  function Round(x: real): int {
    if x >= 0.0 then (x + 0.5).Floor else -((-x + 0.5).Floor)
  }

  /** The rounding is the nearest integer to `x`; a tie goes to the integer farther from zero. */
  lemma RoundIsNearest(x: real)
    ensures x >= 0.0 ==> Round(x) as real - 0.5 <= x < Round(x) as real + 0.5
    ensures x < 0.0 ==> Round(x) as real - 0.5 < x <= Round(x) as real + 0.5
  {
  }

  /** Any integer strictly closer than one half to `x` is its rounding. */
  lemma RoundNear(x: real, n: int)
    requires n as real - 0.5 < x < n as real + 0.5
    ensures Round(x) == n
  {
    RoundIsNearest(x);
  }

  /** Rounding an integral value gives that value back. */
  lemma RoundOfInt(n: int)
    ensures Round(n as real) == n
  {
    RoundNear(n as real, n);
  }

  /** Rounding never reverses the order of two values. */
  lemma RoundMonotone(x: real, y: real)
    requires x <= y
    ensures Round(x) <= Round(y)
  {
    RoundIsNearest(x);
    RoundIsNearest(y);
  }

  /** A value rounds to a positive integer exactly when it is at least one half. */
  lemma RoundPositive(x: real)
    ensures Round(x) > 0 <==> x >= 0.5
  {
    RoundIsNearest(x);
  }
}
