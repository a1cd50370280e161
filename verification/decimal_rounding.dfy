/** `Math.Round(x, 2)` on `decimal`: rounding to two decimal places with
    the default midpoint rule of .NET, ties to the even neighbour. */
module DecimalRounding {

  /** The nearest integer to `x`; a tie goes to the even neighbour. */
  function RoundHalfEven(x: real): (n: int)
    ensures x - 0.5 <= n as real <= x + 0.5
    ensures (n as real - x == 0.5 || x - n as real == 0.5) ==> n % 2 == 0
  {
    var f := x.Floor;
    var frac := x - f as real;
    if frac < 0.5 then f
    else if frac > 0.5 then f + 1
    else if f % 2 == 0 then f else f + 1
  }

  /** The two clauses of `RoundHalfEven` pin the result down: an integer
      nearer than one half, or an even one at exactly one half, is it. */
  lemma RoundHalfEvenUnique(x: real, m: int)
    requires x - 0.5 <= m as real <= x + 0.5
    requires (m as real - x == 0.5 || x - m as real == 0.5) ==> m % 2 == 0
    ensures m == RoundHalfEven(x)
  {
  }

  lemma {:induction false} RoundHalfEvenMonotone(x: real, y: real)
    requires x <= y
    ensures RoundHalfEven(x) <= RoundHalfEven(y)
  {
    var fx, fy := x.Floor, y.Floor;
    if fx < fy {
      assert RoundHalfEven(x) <= fx + 1 <= fy <= RoundHalfEven(y);
    } else {
      assert fx == fy;
    }
  }

  lemma RoundHalfEvenOfInteger(n: int)
    ensures RoundHalfEven(n as real) == n
  {
    assert (n as real).Floor == n;
  }

  /** `Math.Round(x, 2)`. */
  function Round2(x: real): (r: real)
    ensures x - 0.005 <= r <= x + 0.005
    ensures (r * 100.0).Floor as real == r * 100.0
    ensures (r - x == 0.005 || x - r == 0.005) ==> (r * 100.0).Floor % 2 == 0
  {
    var n := RoundHalfEven(x * 100.0);
    assert (n as real / 100.0) * 100.0 == n as real;
    n as real / 100.0
  }

  /** The clauses of `Round2` pin the result down: a number of hundredths
      nearer than half a hundredth, or an even one at exactly half a
      hundredth, is it. */
  lemma Round2Unique(x: real, n: int)
    requires x - 0.005 <= n as real / 100.0 <= x + 0.005
    requires (n as real / 100.0 - x == 0.005 || x - n as real / 100.0 == 0.005) ==> n % 2 == 0
    ensures Round2(x) == n as real / 100.0
  {
    RoundHalfEvenUnique(x * 100.0, n);
  }

  lemma Round2Monotone(x: real, y: real)
    requires x <= y
    ensures Round2(x) <= Round2(y)
  {
    RoundHalfEvenMonotone(x * 100.0, y * 100.0);
  }

  /** A value that already has two decimal places is left as it is. */
  lemma Round2OfTwoDecimals(n: int)
    ensures Round2(n as real / 100.0) == n as real / 100.0
  {
    assert (n as real / 100.0) * 100.0 == n as real;
    RoundHalfEvenOfInteger(n);
  }

  /** Rounding keeps a percentage inside [0, 100]. */
  lemma Round2PercentInRange(x: real)
    requires 0.0 <= x <= 100.0
    ensures 0.0 <= Round2(x) <= 100.0
  {
    Round2Monotone(0.0, x);
    Round2Monotone(x, 100.0);
    Round2OfTwoDecimals(0);
    Round2OfTwoDecimals(10000);
  }
}
