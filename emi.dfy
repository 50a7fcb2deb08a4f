/**
 * `calculate_emi` (core/utils.py:108-115): the reducing-balance installment
 * `P * r * (1+r)^n / ((1+r)^n - 1)` with `r = rate / 12 / 100`, rounded to
 * two decimals.  Python raises ZeroDivisionError when the denominator is
 * zero (a rate of 0, a tenure of 0, ...) or when `0.0` is raised to a
 * negative power; both are the `Err` result here.
 */
module Emi {
  import opened Wrappers
  import opened PyRound

  datatype EmiError = ZeroDivisionError

  function Pow(x: real, n: nat): real {
    if n == 0 then 1.0 else x * Pow(x, n - 1)
  }

  function Abs(x: real): real {
    if x < 0.0 then -x else x
  }

  lemma {:induction false} PowNonZero(x: real, n: nat)
    requires x != 0.0
    ensures Pow(x, n) != 0.0
  {
    if n > 0 {
      PowNonZero(x, n - 1);
    }
  }

  lemma {:induction false} PowAbs(x: real, n: nat)
    ensures Abs(Pow(x, n)) == Pow(Abs(x), n)
  {
    if n > 0 {
      PowAbs(x, n - 1);
      assert Abs(x * Pow(x, n - 1)) == Abs(x) * Abs(Pow(x, n - 1));
    }
  }

  lemma {:induction false} PowOfMinusOne(n: nat)
    ensures Pow(-1.0, n) == if n % 2 == 0 then 1.0 else -1.0
  {
    if n > 0 {
      PowOfMinusOne(n - 1);
    }
  }

  /** For a base above one, powers grow strictly with the exponent; below one (and non-negative) they shrink. */
  lemma {:induction false} PowAgainstOne(x: real, n: nat)
    requires x >= 0.0 && n >= 1
    ensures x > 1.0 ==> Pow(x, n) > 1.0
    ensures x < 1.0 ==> Pow(x, n) < 1.0
  {
    if n > 1 {
      PowAgainstOne(x, n - 1);
      if x > 1.0 {
        assert x * Pow(x, n - 1) > 1.0 * Pow(x, n - 1);
      } else if x < 1.0 {
        assert x * Pow(x, n - 1) <= 1.0 * Pow(x, n - 1) by {
          assert Pow(x, n - 1) >= 0.0 by { PowNonNegative(x, n - 1); }
        }
      }
    }
  }

  lemma {:induction false} PowNonNegative(x: real, n: nat)
    requires x >= 0.0
    ensures Pow(x, n) >= 0.0
  {
    if n > 0 {
      PowNonNegative(x, n - 1);
    }
  }

  /** `x ** n == 1` for a natural exponent exactly when n is 0, x is 1, or x is -1 and n is even. */
  lemma PowIsOne(x: real, n: nat)
    ensures Pow(x, n) == 1.0 <==> (n == 0 || x == 1.0 || (x == -1.0 && n % 2 == 0))
  {
    if n == 0 {
    } else if x == 1.0 {
      assert forall k: nat :: Pow(1.0, k) == 1.0 by {
        forall k: nat ensures Pow(1.0, k) == 1.0 { PowOfOne(k); }
      }
    } else if x == -1.0 {
      PowOfMinusOne(n);
    } else {
      PowAbs(x, n);
      PowAgainstOne(Abs(x), n);
    }
  }

  lemma {:induction false} PowOfOne(n: nat)
    ensures Pow(1.0, n) == 1.0
  {
    if n > 0 {
      PowOfOne(n - 1);
    }
  }

  /** Python's `x ** n` for an integer exponent. */
  function IntPow(x: real, n: int): (r: Result<real, EmiError>)
    ensures r.Err? <==> x == 0.0 && n < 0
    ensures r.Ok? && n < 0 ==> r.value * Pow(x, -n) == 1.0
  {
    if n >= 0 then Ok(Pow(x, n))
    else if x == 0.0 then Err(ZeroDivisionError)
    else
      PowNonZero(x, -n);
      Ok(1.0 / Pow(x, -n))
  }

  /** The monthly rate `r`, from an annual rate in percent. */
  function MonthlyRate(rate: real): (r: real)
    ensures r == 0.0 <==> rate == 0.0
    ensures r > 0.0 <==> rate > 0.0
  {
    rate / 12.0 / 100.0
  }

  /** `numerator / denominator` of lines 112-114, for `g == (1 + r) ** tenure`. */
  function Annuity(loanAmount: real, r: real, g: real): real
    requires g - 1.0 != 0.0
  {
    loanAmount * r * g / (g - 1.0)
  }

  /** The installment before rounding. */
  function ExactEmi(loanAmount: real, tenure: int, rate: real): Result<real, EmiError> {
    match IntPow(1.0 + MonthlyRate(rate), tenure)
    case Err(e) => Err(e)
    case Ok(g) =>
      if g - 1.0 == 0.0 then Err(ZeroDivisionError)
      else Ok(Annuity(loanAmount, MonthlyRate(rate), g))
  }

  /** `calculate_emi(loan_amount, tenure_months, interest_rate)`. */
  function CalculateEmi(loanAmount: real, tenure: int, rate: real): (r: Result<real, EmiError>)
    ensures ExactEmi(loanAmount, tenure, rate).Ok? ==> r.Ok?
    ensures r.Ok? ==> (ExactEmi(loanAmount, tenure, rate).Ok?
      && ExactEmi(loanAmount, tenure, rate).value - 0.005 <= r.value <= ExactEmi(loanAmount, tenure, rate).value + 0.005
      && (r.value * 100.0).Floor as real == r.value * 100.0)
  {
    match ExactEmi(loanAmount, tenure, rate)
    case Err(e) => Err(e)
    case Ok(v) => Ok(Round2(v))
  }

  /**
   * In exact arithmetic, exactly the inputs on which the formula is undefined:
   * a tenure of 0, a rate of 0, a rate of -2400 % with an even tenure ((1+r)
   * is -1), and a rate of -1200 % with a negative tenure ((1+r) is 0).  The
   * loan amount plays no part.  In floats the source raises in more cases
   * (an overflowing power, or `1 + r == 1.0` for a tiny rate).
   */
  lemma CalculateEmiFails(loanAmount: real, tenure: int, rate: real)
    ensures CalculateEmi(loanAmount, tenure, rate).Err? <==>
      (tenure == 0 || rate == 0.0
       || (rate == -2400.0 && tenure % 2 == 0)
       || (rate == -1200.0 && tenure < 0))
  {
    var x := 1.0 + MonthlyRate(rate);
    assert x == 1.0 <==> rate == 0.0;
    assert x == -1.0 <==> rate == -2400.0;
    assert x == 0.0 <==> rate == -1200.0;
    if tenure >= 0 {
      PowIsOne(x, tenure);
    } else if x != 0.0 {
      PowIsOne(x, -tenure);
      PowNonZero(x, -tenure);
      assert 1.0 / Pow(x, -tenure) == 1.0 <==> Pow(x, -tenure) == 1.0;
      assert (-tenure) % 2 == 0 <==> tenure % 2 == 0;
    }
  }

  /** A positive rate and at least one month always yield an installment. */
  lemma CalculateEmiDefined(loanAmount: real, tenure: int, rate: real)
    requires rate > 0.0 && tenure >= 1
    ensures CalculateEmi(loanAmount, tenure, rate).Ok?
  {
    CalculateEmiFails(loanAmount, tenure, rate);
  }

  lemma DivFactor(a: real, b: real, c: real)
    requires c != 0.0
    ensures a * b / c == a * (b / c)
  {
  }

  /** Before rounding the installment is proportional to the loan amount. */
  lemma ExactEmiLinear(loanAmount: real, tenure: int, rate: real)
    ensures ExactEmi(loanAmount, tenure, rate).Ok? == ExactEmi(1.0, tenure, rate).Ok?
    ensures ExactEmi(loanAmount, tenure, rate).Ok? ==>
      ExactEmi(loanAmount, tenure, rate).value == loanAmount * ExactEmi(1.0, tenure, rate).value
  {
    var r := MonthlyRate(rate);
    var p := IntPow(1.0 + r, tenure);
    if p.Ok? && p.value - 1.0 != 0.0 {
      var g := p.value;
      assert ExactEmi(loanAmount, tenure, rate).value == Annuity(loanAmount, r, g);
      assert ExactEmi(1.0, tenure, rate).value == Annuity(1.0, r, g);
      DivFactor(loanAmount, r * g, g - 1.0);
      assert loanAmount * r * g == loanAmount * (r * g);
    }
  }

  /** The balance still owed after k installments of `emi` at monthly rate r. */
  function Balance(principal: real, r: real, emi: real, k: nat): real {
    if k == 0 then principal else Balance(principal, r, emi, k - 1) * (1.0 + r) - emi
  }

  lemma {:induction false} BalanceClosedForm(principal: real, r: real, emi: real, k: nat)
    ensures Balance(principal, r, emi, k) * r
      == principal * Pow(1.0 + r, k) * r - emi * (Pow(1.0 + r, k) - 1.0)
  {
    if k > 0 {
      BalanceClosedForm(principal, r, emi, k - 1);
      BalanceStep(principal, r, emi, Balance(principal, r, emi, k - 1), Pow(1.0 + r, k - 1));
    }
  }

  lemma BalanceStep(principal: real, r: real, emi: real, b: real, g: real)
    requires b * r == principal * g * r - emi * (g - 1.0)
    ensures (b * (1.0 + r) - emi) * r == principal * ((1.0 + r) * g) * r - emi * ((1.0 + r) * g - 1.0)
  {
    var x := 1.0 + r;
    assert (b * x - emi) * r == (b * r) * x - emi * r;
    assert (principal * g * r - emi * (g - 1.0)) * x
      == principal * (x * g) * r - emi * (x * g) + emi * x;
  }

  /**
   * The unrounded installment is the one that repays the loan: after
   * `tenure` monthly payments of it, with interest added each month,
   * nothing is owed.
   */
  lemma ExactEmiRepaysLoan(loanAmount: real, tenure: nat, rate: real)
    requires ExactEmi(loanAmount, tenure, rate).Ok?
    ensures Balance(loanAmount, MonthlyRate(rate), ExactEmi(loanAmount, tenure, rate).value, tenure) == 0.0
  {
    var r := MonthlyRate(rate);
    var g := Pow(1.0 + r, tenure);
    var e := ExactEmi(loanAmount, tenure, rate).value;
    assert g - 1.0 != 0.0;
    if r == 0.0 {
      PowOfOne(tenure);
      assert false;
    }
    assert IntPow(1.0 + r, tenure) == Ok(g);
    assert e == Annuity(loanAmount, r, g);
    assert e * (g - 1.0) == loanAmount * g * r;
    BalanceClosedForm(loanAmount, r, e, tenure);
    assert Balance(loanAmount, r, e, tenure) * r == 0.0;
  }

  /** For a positive rate and at least one month the unrounded installment per unit borrowed is positive. */
  lemma ExactEmiPerUnitPositive(tenure: int, rate: real)
    requires rate > 0.0 && tenure >= 1
    ensures ExactEmi(1.0, tenure, rate).Ok? && ExactEmi(1.0, tenure, rate).value > 0.0
  {
    var r := MonthlyRate(rate);
    PowAgainstOne(1.0 + r, tenure);
    var g := Pow(1.0 + r, tenure);
    assert ExactEmi(1.0, tenure, rate).value == Annuity(1.0, r, g);
    assert 1.0 * r * g > 0.0;
  }

  /** A larger loan never gets a smaller installment (positive rate, at least one month). */
  lemma CalculateEmiMonotoneInAmount(smaller: real, larger: real, tenure: int, rate: real)
    requires rate > 0.0 && tenure >= 1 && smaller <= larger
    ensures CalculateEmi(smaller, tenure, rate).Ok? && CalculateEmi(larger, tenure, rate).Ok?
    ensures CalculateEmi(smaller, tenure, rate).value <= CalculateEmi(larger, tenure, rate).value
  {
    ExactEmiPerUnitPositive(tenure, rate);
    ExactEmiLinear(smaller, tenure, rate);
    ExactEmiLinear(larger, tenure, rate);
    var c := ExactEmi(1.0, tenure, rate).value;
    assert smaller * c <= larger * c;
    Round2Monotone(smaller * c, larger * c);
    assert ExactEmi(smaller, tenure, rate).value == smaller * c;
    assert CalculateEmi(smaller, tenure, rate).value == Round2(smaller * c);
    assert ExactEmi(larger, tenure, rate).value == larger * c;
    assert CalculateEmi(larger, tenure, rate).value == Round2(larger * c);
  }

  /** Real-arithmetic steps the solver does not take on its own. */
  lemma DivUnique(a: real, b: real, q: real)
    requires b != 0.0 && q * b == a
    ensures a / b == q
  {
  }

  lemma MulLess(a: real, b: real, c: real, d: real)
    requires 0.0 < a < c && 0.0 < b < d
    ensures a * b < c * d
  {
    assert a * b < c * b;
    assert c * b < c * d;
  }

  lemma DivLess(p: real, small: real, big: real)
    requires p > 0.0 && 0.0 < small < big
    ensures p / big < p / small
  {
    var q1, q2 := p / big, p / small;
    assert q1 * big == p;
    assert q2 * small == p;
  }

  lemma PresentValueStep(d: real, g: real, x: real, s: real)
    requires g > 0.0 && x > 0.0 && d * g == s && s * (x - 1.0) == g - 1.0
    ensures (d + 1.0 / (x * g)) * (x * g) == s + g
  {
    var p := x * g;
    assert p > 0.0;
    assert (1.0 / p) * p == 1.0;
    assert (d + 1.0 / p) * p == d * p + 1.0;
    assert d * p == (d * g) * x;
    assert s * x == s + g - 1.0;
  }

  lemma AnnuityStep(loanAmount: real, r: real, g: real, s: real, d: real)
    requires r > 0.0 && d > 0.0 && g > 1.0 && s * r == g - 1.0 && d * g == s
    ensures Annuity(loanAmount, r, g) == loanAmount / d
  {
    var q := loanAmount / d;
    assert q * d == loanAmount;
    assert q * (g - 1.0) == q * (d * g * r);
    assert q * (d * g * r) == (q * d) * g * r;
    assert loanAmount * g * r == loanAmount * r * g;
    DivUnique(loanAmount * r * g, g - 1.0, q);
  }

  /** `1 + x + ... + x^(n-1)`. */
  function GeometricSum(x: real, n: nat): real {
    if n == 0 then 0.0 else GeometricSum(x, n - 1) + Pow(x, n - 1)
  }

  /** `1/x + 1/x^2 + ... + 1/x^n`: the value today of n unit payments discounted at x per month. */
  function PresentValue(x: real, n: nat): real
    requires x > 0.0
  {
    if n == 0 then 0.0
    else
      PowPositive(x, n);
      PresentValue(x, n - 1) + 1.0 / Pow(x, n)
  }

  lemma {:induction false} PowPositive(x: real, n: nat)
    requires x > 0.0
    ensures Pow(x, n) > 0.0
  {
    if n > 0 {
      PowPositive(x, n - 1);
    }
  }

  lemma {:induction false} GeometricSumClosed(x: real, n: nat)
    ensures GeometricSum(x, n) * (x - 1.0) == Pow(x, n) - 1.0
  {
    if n > 0 {
      GeometricSumClosed(x, n - 1);
    }
  }

  lemma {:induction false} PresentValueScaled(x: real, n: nat)
    requires x > 0.0
    ensures PresentValue(x, n) * Pow(x, n) == GeometricSum(x, n)
  {
    if n > 0 {
      PresentValueScaled(x, n - 1);
      GeometricSumClosed(x, n - 1);
      PowPositive(x, n);
      var d, g := PresentValue(x, n - 1), Pow(x, n - 1);
      assert Pow(x, n) == x * g;
      PresentValueStep(d, g, x, GeometricSum(x, n - 1));
    }
  }

  /** For a positive monthly rate the annuity formula is the loan divided by the present value of its payments. */
  lemma AnnuityAsPresentValue(loanAmount: real, tenure: nat, r: real)
    requires r > 0.0 && tenure >= 1
    ensures Pow(1.0 + r, tenure) - 1.0 != 0.0
    ensures PresentValue(1.0 + r, tenure) > 0.0
    ensures Annuity(loanAmount, r, Pow(1.0 + r, tenure)) == loanAmount / PresentValue(1.0 + r, tenure)
  {
    var x := 1.0 + r;
    var g := Pow(x, tenure);
    var s, d := GeometricSum(x, tenure), PresentValue(x, tenure);
    assert g > 1.0 by { PowAgainstOne(x, tenure); }
    assert s * r == g - 1.0 by { GeometricSumClosed(x, tenure); }
    assert d * g == s by { PresentValueScaled(x, tenure); }
    assert d > 0.0 by { PresentValuePositive(x, tenure); }
    AnnuityStep(loanAmount, r, g, s, d);
  }

  lemma {:induction false} PresentValuePositive(x: real, n: nat)
    requires x > 0.0 && n >= 1
    ensures PresentValue(x, n) > 0.0
  {
    PowPositive(x, n);
    if n > 1 {
      PresentValuePositive(x, n - 1);
    }
  }

  lemma {:induction false} PowMonotoneInBase(x: real, y: real, n: nat)
    requires 0.0 < x < y && n >= 1
    ensures Pow(x, n) < Pow(y, n)
  {
    if n > 1 {
      PowMonotoneInBase(x, y, n - 1);
      PowPositive(x, n - 1);
      MulLess(x, Pow(x, n - 1), y, Pow(y, n - 1));
    }
  }

  lemma {:induction false} PresentValueFalls(x: real, y: real, n: nat)
    requires 0.0 < x < y && n >= 1
    ensures PresentValue(y, n) < PresentValue(x, n)
  {
    PowMonotoneInBase(x, y, n);
    PowPositive(x, n);
    DivLess(1.0, Pow(x, n), Pow(y, n));
    if n > 1 {
      PresentValueFalls(x, y, n - 1);
    }
  }

  /**
   * A higher positive rate never gives a smaller installment, and before
   * rounding it gives a strictly larger one for a positive loan amount.
   */
  lemma CalculateEmiMonotoneInRate(loanAmount: real, tenure: int, lower: real, higher: real)
    requires 0.0 < lower < higher && tenure >= 1 && loanAmount > 0.0
    ensures ExactEmi(loanAmount, tenure, lower).Ok? && ExactEmi(loanAmount, tenure, higher).Ok?
    ensures ExactEmi(loanAmount, tenure, lower).value < ExactEmi(loanAmount, tenure, higher).value
    ensures CalculateEmi(loanAmount, tenure, lower).value <= CalculateEmi(loanAmount, tenure, higher).value
  {
    var r1, r2 := MonthlyRate(lower), MonthlyRate(higher);
    AnnuityAsPresentValue(loanAmount, tenure, r1);
    AnnuityAsPresentValue(loanAmount, tenure, r2);
    PresentValueFalls(1.0 + r1, 1.0 + r2, tenure);
    var d1, d2 := PresentValue(1.0 + r1, tenure), PresentValue(1.0 + r2, tenure);
    assert ExactEmi(loanAmount, tenure, lower).value == loanAmount / d1;
    assert ExactEmi(loanAmount, tenure, higher).value == loanAmount / d2;
    DivLess(loanAmount, d2, d1);
    Round2Monotone(loanAmount / d1, loanAmount / d2);
  }
}
