/** Python's rounding and truncation, written out on mathematical reals. */
module Numerics {

  /** Round to the nearest integer, ties to even: Python's `round(x)` and
      NumPy's `rint`. */
  function RoundHalfEven(x: real): (r: int)
    ensures x - 0.5 <= r as real <= x + 0.5
    ensures (r as real - x == 0.5 || x - r as real == 0.5) ==> r % 2 == 0
  {
    var f := x.Floor;
    var frac := x - f as real;
    if frac < 0.5 then f
    else if frac > 0.5 then f + 1
    else if f % 2 == 0 then f
    else f + 1
  }

  /** `int(x)`: truncation toward zero. */
  function Truncate(x: real): (r: int)
    ensures 0.0 <= x ==> 0 <= r && r as real <= x < r as real + 1.0
    ensures x < 0.0 ==> r <= 0 && r as real - 1.0 < x <= r as real
  {
    if x >= 0.0 then x.Floor else -((-x).Floor)
  }

  /** On a whole number, rounding to the nearest integer changes nothing. */
  lemma RoundHalfEvenOfWhole(n: int)
    ensures RoundHalfEven(n as real) == n
  {
  }

  /** The floor of an exact quotient of naturals is integer division. */
  lemma FloorOfQuotient(a: int, b: int)
    requires 0 <= a && 0 < b
    ensures (a as real / b as real).Floor == a / b
  {
    var q, r := a / b, a % b;
    assert a == q * b + r && 0 <= r < b;
    var x := a as real / b as real;
    assert x * b as real == a as real;
    assert q as real * b as real <= a as real;
    assert a as real < (q + 1) as real * b as real;
    assert q as real <= x by {
      assert q as real * b as real <= x * b as real;
    }
    assert x < (q + 1) as real by {
      assert x * b as real < (q + 1) as real * b as real;
    }
  }
}
