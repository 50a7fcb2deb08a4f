/**
 * `determine_loan_eligibility` (core/utils.py:118-168): an affordability
 * gate, then three credit-score bands, first match wins.  `Decide` is the
 * ladder as a function of the score and the active monthly payments;
 * `DetermineLoanEligibility` is the procedure itself, which scores the
 * customer first.  An exception from `calculate_emi` is the `Err` result.
 */
module Eligibility {
  import opened Wrappers
  import opened Dates
  import opened Models
  import opened Emi
  import opened CreditScore

  /** The five outcome messages of `core.constants`. */
  datatype Message =
    | LoanSuccessful
    | LoanUnsuccessful12
    | LoanUnsuccessful16
    | LoanUnsuccessful
    | MonthlyPaymentExceeds50

  /** `res_data`: the quoted installment and the rate it is quoted at. */
  datatype LoanData = LoanData(monthlyPayment: real, interestRate: real)

  /** `(is_eligible, is_interest_rate_updated, loan_data, message)`. */
  datatype Decision = Decision(isEligible: bool, isInterestRateUpdated: bool, loanData: LoanData, message: Message)

  /** Lines 142-145: the new installment would take the customer's payments past half the salary. */
  predicate ExceedsHalfSalary(totalMonthlyPayment: real, emi: real, salary: real) {
    totalMonthlyPayment + emi > salary * 0.5
  }

  /** A score band with a minimum rate (lines 152-166): approve as asked at or above the floor, else quote at the floor. */
  function RaiseTo(loanAmount: real, rate: real, tenure: int, data: LoanData, floor: real, msg: Message)
    : Result<Decision, EmiError>
  {
    if rate >= floor then Ok(Decision(true, false, data, LoanSuccessful))
    else match CalculateEmi(loanAmount, tenure, floor)
      case Err(e) => Err(e)
      case Ok(v) => Ok(Decision(true, true, LoanData(v, floor), msg))
  }

  /** The decision ladder for a customer with the given credit score and active monthly payments. */
  function Decide(loanAmount: real, rate: real, tenure: int, salary: real, totalMonthlyPayment: real, score: int)
    : Result<Decision, EmiError>
  {
    match CalculateEmi(loanAmount, tenure, rate)
    case Err(e) => Err(e)
    case Ok(emi) =>
      var data := LoanData(emi, rate);
      if ExceedsHalfSalary(totalMonthlyPayment, emi, salary) then Ok(Decision(false, false, data, MonthlyPaymentExceeds50))
      else if score > 50 then Ok(Decision(true, false, data, LoanSuccessful))
      else if score > 30 then RaiseTo(loanAmount, rate, tenure, data, 12.0, LoanUnsuccessful12)
      else if score > 10 then RaiseTo(loanAmount, rate, tenure, data, 16.0, LoanUnsuccessful16)
      else Ok(Decision(false, false, data, LoanUnsuccessful))
  }

  /** The decision for a customer whose loans are in `table`, as of `today`: the ladder at the customer's own score. */
  function LoanEligibility(
    loanAmount: real, rate: real, tenure: int, customer: Customer, table: seq<Loan>, today: Date)
    : Result<Decision, EmiError>
  {
    var agg := Aggregated(LoansOf(table, customer.customerId), today);
    Decide(loanAmount, rate, tenure, customer.monthlySalary, agg.totalMonthlyPayment, Score(customer, agg))
  }

  /** `determine_loan_eligibility(loan_amount, interest_rate, tenure, customer)` against the loan table as of `today`. */
  method DetermineLoanEligibility(
    loanAmount: real, interestRate: real, tenure: int, customer: Customer, table: seq<Loan>, today: Date)
    returns (res: Result<Decision, EmiError>)
    ensures res == LoanEligibility(loanAmount, interestRate, tenure, customer, table, today)
  {
    var creditScore, loanData := CalculateCreditScore(customer, table, today);
    var monthlyPayment := CalculateEmi(loanAmount, tenure, interestRate);
    if monthlyPayment.Err? {
      return Err(monthlyPayment.error);
    }
    var resData := LoanData(monthlyPayment.value, interestRate);
    var msg := LoanSuccessful;

    if loanData.totalMonthlyPayment + monthlyPayment.value > customer.monthlySalary * 0.5 {
      msg := MonthlyPaymentExceeds50;
      return Ok(Decision(false, false, resData, msg));
    }

    if creditScore > 50 {
      return Ok(Decision(true, false, resData, msg));
    }

    if creditScore > 30 {
      if interestRate >= 12.0 {
        return Ok(Decision(true, false, resData, msg));
      }
      resData := resData.(interestRate := 12.0);
      var corrected := CalculateEmi(loanAmount, tenure, 12.0);
      if corrected.Err? {
        return Err(corrected.error);
      }
      resData := resData.(monthlyPayment := corrected.value);
      msg := LoanUnsuccessful12;
      return Ok(Decision(true, true, resData, msg));
    }

    if creditScore > 10 {
      if interestRate >= 16.0 {
        return Ok(Decision(true, false, resData, msg));
      }
      resData := resData.(interestRate := 16.0);
      var corrected := CalculateEmi(loanAmount, tenure, 16.0);
      if corrected.Err? {
        return Err(corrected.error);
      }
      resData := resData.(monthlyPayment := corrected.value);
      msg := LoanUnsuccessful16;
      return Ok(Decision(true, true, resData, msg));
    }

    return Ok(Decision(false, false, resData, LoanUnsuccessful));
  }

  // ---- the ladder, rule by rule ----

  /** The affordability gate comes first: whatever the score, an unaffordable installment is refused at the asked rate. */
  lemma AffordabilityGateFirst(loanAmount: real, rate: real, tenure: int, salary: real, totalMonthlyPayment: real, score: int)
    requires CalculateEmi(loanAmount, tenure, rate).Ok?
    requires ExceedsHalfSalary(totalMonthlyPayment, CalculateEmi(loanAmount, tenure, rate).value, salary)
    ensures Decide(loanAmount, rate, tenure, salary, totalMonthlyPayment, score)
      == Ok(Decision(false, false, LoanData(CalculateEmi(loanAmount, tenure, rate).value, rate), MonthlyPaymentExceeds50))
  {
  }

  /** Above 50 an affordable loan is approved at the asked rate. */
  lemma HighScoreApproved(loanAmount: real, rate: real, tenure: int, salary: real, totalMonthlyPayment: real, score: int)
    requires CalculateEmi(loanAmount, tenure, rate).Ok?
    requires !ExceedsHalfSalary(totalMonthlyPayment, CalculateEmi(loanAmount, tenure, rate).value, salary)
    requires score > 50
    ensures Decide(loanAmount, rate, tenure, salary, totalMonthlyPayment, score)
      == Ok(Decision(true, false, LoanData(CalculateEmi(loanAmount, tenure, rate).value, rate), LoanSuccessful))
  {
  }

  /**
   * In the bands (30, 50] and (10, 30] an affordable loan is approved; a
   * rate below the band's floor (12 and 16) is raised to the floor and the
   * installment recomputed there, which never fails.
   */
  lemma BandedScoreCorrection(loanAmount: real, rate: real, tenure: int, salary: real, totalMonthlyPayment: real, score: int)
    requires CalculateEmi(loanAmount, tenure, rate).Ok?
    requires !ExceedsHalfSalary(totalMonthlyPayment, CalculateEmi(loanAmount, tenure, rate).value, salary)
    requires 10 < score <= 50
    ensures var floor := if score > 30 then 12.0 else 16.0;
      var msg := if score > 30 then LoanUnsuccessful12 else LoanUnsuccessful16;
      && CalculateEmi(loanAmount, tenure, floor).Ok?
      && Decide(loanAmount, rate, tenure, salary, totalMonthlyPayment, score)
        == if rate >= floor
           then Ok(Decision(true, false, LoanData(CalculateEmi(loanAmount, tenure, rate).value, rate), LoanSuccessful))
           else Ok(Decision(true, true, LoanData(CalculateEmi(loanAmount, tenure, floor).value, floor), msg))
  {
    CalculateEmiFails(loanAmount, tenure, rate);
    CalculateEmiFails(loanAmount, tenure, 12.0);
    CalculateEmiFails(loanAmount, tenure, 16.0);
  }

  /** At 10 or below an affordable loan is refused. */
  lemma LowScoreRejected(loanAmount: real, rate: real, tenure: int, salary: real, totalMonthlyPayment: real, score: int)
    requires CalculateEmi(loanAmount, tenure, rate).Ok?
    requires !ExceedsHalfSalary(totalMonthlyPayment, CalculateEmi(loanAmount, tenure, rate).value, salary)
    requires score <= 10
    ensures Decide(loanAmount, rate, tenure, salary, totalMonthlyPayment, score)
      == Ok(Decision(false, false, LoanData(CalculateEmi(loanAmount, tenure, rate).value, rate), LoanUnsuccessful))
  {
  }

  /** The band floor a score imposes on the rate, if any. */
  predicate NeedsCorrection(rate: real, score: int) {
    (30 < score <= 50 && rate < 12.0) || (10 < score <= 30 && rate < 16.0)
  }

  /**
   * The decision as a whole: it fails exactly when the installment at the
   * asked rate cannot be computed; otherwise the loan is eligible iff it is
   * affordable and the score is above 10, the rate is corrected iff it is
   * affordable and below its band's floor, a corrected quote is always
   * eligible and at a higher rate, and an uncorrected one keeps the asked
   * rate and installment.
   */
  lemma DecisionCharacterized(loanAmount: real, rate: real, tenure: int, salary: real, totalMonthlyPayment: real, score: int)
    ensures var r := Decide(loanAmount, rate, tenure, salary, totalMonthlyPayment, score);
      var emi := CalculateEmi(loanAmount, tenure, rate);
      && (r.Ok? <==> emi.Ok?)
      && (r.Ok? ==>
        var gate := ExceedsHalfSalary(totalMonthlyPayment, emi.value, salary);
        var d := r.value;
        && (d.isEligible <==> !gate && score > 10)
        && (d.isInterestRateUpdated <==> !gate && NeedsCorrection(rate, score))
        && (d.isInterestRateUpdated ==> d.isEligible && d.loanData.interestRate > rate)
        && (!d.isInterestRateUpdated ==> d.loanData == LoanData(emi.value, rate))
        && (d.message == LoanSuccessful <==> d.isEligible && !d.isInterestRateUpdated))
  {
    var emi := CalculateEmi(loanAmount, tenure, rate);
    if emi.Ok? && !ExceedsHalfSalary(totalMonthlyPayment, emi.value, salary) && 10 < score <= 50 {
      BandedScoreCorrection(loanAmount, rate, tenure, salary, totalMonthlyPayment, score);
    }
  }

  /**
   * For a positive amount and rate a corrected quote never asks less per
   * month than the refused one: raising the rate raises the installment.
   */
  lemma CorrectionNeverLowersInstallment(
    loanAmount: real, rate: real, tenure: int, salary: real, totalMonthlyPayment: real, score: int)
    requires loanAmount > 0.0 && rate > 0.0 && tenure >= 1
    requires Decide(loanAmount, rate, tenure, salary, totalMonthlyPayment, score).Ok?
    requires Decide(loanAmount, rate, tenure, salary, totalMonthlyPayment, score).value.isInterestRateUpdated
    ensures CalculateEmi(loanAmount, tenure, rate).value
      <= Decide(loanAmount, rate, tenure, salary, totalMonthlyPayment, score).value.loanData.monthlyPayment
  {
    if score > 30 {
      CalculateEmiMonotoneInRate(loanAmount, tenure, rate, 12.0);
    } else {
      CalculateEmiMonotoneInRate(loanAmount, tenure, rate, 16.0);
    }
  }

  /**
   * The gate is not applied again to the corrected installment: a customer
   * with salary 201 and no active loans who asks for 100 over one month at
   * 0.12 % passes the gate (100.01 <= 100.5), scores in (10, 30], and is
   * quoted 101.33 at 16 % as eligible, although that is more than half the salary.
   */
  lemma CorrectedQuoteSkipsGate()
    ensures Decide(100.0, 0.12, 1, 201.0, 0.0, 20)
      == Ok(Decision(true, true, LoanData(101.33, 16.0), LoanUnsuccessful16))
    ensures ExceedsHalfSalary(0.0, 101.33, 201.0)
  {
    assert Pow(1.0 + MonthlyRate(0.12), 1) == 1.0001;
    assert ExactEmi(100.0, 1, 0.12) == Ok(100.01);
    assert 100.01 * 100.0 == 10001 as real;
    PyRound.RoundHalfEvenOfInt(10001);
    assert CalculateEmi(100.0, 1, 0.12) == Ok(100.01);
    var x := 1.0 + MonthlyRate(16.0);
    assert Pow(x, 1) == x;
    assert ExactEmi(100.0, 1, 16.0) == Ok(100.0 * x);
    assert (100.0 * x * 100.0).Floor == 10133;
    assert CalculateEmi(100.0, 1, 16.0) == Ok(101.33);
  }
}
