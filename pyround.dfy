/**
 * Python's `round` on exact reals: `round(x)` sends a value to the nearest
 * integer and ties to the even integer; `round(x, 2)` does the same at the
 * hundredths.  Binary floating point is not modelled: the value rounded is
 * the exact real.
 */
module PyRound {

  /** `round(x)`: nearest integer, ties to even. */
  function RoundHalfEven(x: real): (n: int)
    ensures x - 0.5 <= n as real <= x + 0.5
  {
    var f := x.Floor;
    var d := x - f as real;
    if d < 0.5 then f
    else if d > 0.5 then f + 1
    else if f % 2 == 0 then f
    else f + 1
  }

  /** The rounded value is within one half of x, strictly unless x is a tie. */
  lemma RoundHalfEvenNearest(x: real)
    ensures x - 0.5 <= RoundHalfEven(x) as real <= x + 0.5
    ensures (x - x.Floor as real != 0.5) ==>
              x - 0.5 < RoundHalfEven(x) as real < x + 0.5
  {
  }

  /** On a tie (fractional part exactly one half) the even neighbour wins. */
  lemma RoundHalfEvenTie(x: real)
    requires x - x.Floor as real == 0.5
    ensures RoundHalfEven(x) % 2 == 0
    ensures RoundHalfEven(x) == x.Floor || RoundHalfEven(x) == x.Floor + 1
  {
  }

  /** An integer is its own rounding. */
  lemma RoundHalfEvenOfInt(k: int)
    ensures RoundHalfEven(k as real) == k
  {
  }

  /** Rounding never reverses the order of two values. */
  lemma RoundHalfEvenMonotone(x: real, y: real)
    requires x <= y
    ensures RoundHalfEven(x) <= RoundHalfEven(y)
  {
    var fx, fy := x.Floor, y.Floor;
    if fx < fy {
      assert RoundHalfEven(x) <= fx + 1 <= fy <= RoundHalfEven(y);
    } else {
      assert fx == fy;
    }
  }

  /** `round(x, 2)`: nearest hundredth, ties to the even hundredth. */
  function Round2(x: real): (y: real)
    ensures x - 0.005 <= y <= x + 0.005
    ensures (y * 100.0).Floor as real == y * 100.0
  {
    var k := RoundHalfEven(x * 100.0);
    assert k as real / 100.0 * 100.0 == k as real;
    k as real / 100.0
  }

  lemma Round2Monotone(x: real, y: real)
    requires x <= y
    ensures Round2(x) <= Round2(y)
  {
    RoundHalfEvenMonotone(x * 100.0, y * 100.0);
  }
}
