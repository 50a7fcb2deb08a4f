/**
 * `calculate_emis_till_date` and `calculate_credit_score`
 * (core/utils.py:14-105).  The database aggregate of lines 46-85 is given
 * twice: `Query` keeps SQL's NULL for a SUM over no rows, and the reference
 * `Aggregated` is a plain sum over the customer's loans; lines 92-95 turn
 * the first into the second.  "Today" is a parameter.
 */
module CreditScore {
  import opened Wrappers
  import opened Dates
  import opened Models
  import opened PyRound

  /** `calculate_emis_till_date(...)`: installments nominally due by `today`. */
  function EmisTillDate(tenure: int, emisPaidOnTime: int, approval: Date, endDate: Date, today: Date): int {
    if Before(endDate, today) || emisPaidOnTime == tenure then tenure
    else (today.year - approval.year) * 12 + today.month - approval.month
  }

  function LoanEmisTillDate(l: Loan, today: Date): int {
    EmisTillDate(l.tenure, l.emisPaidOnTime, l.dateOfApproval, l.endDate, today)
  }

  /** `active_loan_predicate` (lines 43-45): not yet past its end date and not fully paid. */
  predicate IsActive(l: Loan, today: Date) {
    AtMost(today, l.endDate) && l.tenure > l.emisPaidOnTime
  }

  /**
   * `date_of_approval >= today - timedelta(days=365)` (line 78), through the
   * ordinal of the cutoff date; `Dates.OrdinalOrder` shows that comparing
   * ordinals is comparing the dates.
   */
  predicate InLastYear(l: Loan, today: Date) {
    Ordinal(l.dateOfApproval) >= Ordinal(today) - 365
  }

  function SumInt(loans: seq<Loan>, f: Loan -> int): int {
    if |loans| == 0 then 0 else SumInt(loans[..|loans| - 1], f) + f(loans[|loans| - 1])
  }

  function SumReal(loans: seq<Loan>, f: Loan -> real): real {
    if |loans| == 0 then 0.0 else SumReal(loans[..|loans| - 1], f) + f(loans[|loans| - 1])
  }

  function ActiveAmount(loans: seq<Loan>, today: Date): int {
    SumInt(loans, l => if IsActive(l, today) then l.loanAmount else 0)
  }

  function ActiveCount(loans: seq<Loan>, today: Date): int {
    SumInt(loans, l => if IsActive(l, today) then 1 else 0)
  }

  function ActiveMonthlyPayment(loans: seq<Loan>, today: Date): real {
    SumReal(loans, l => if IsActive(l, today) then l.monthlyPayment else 0.0)
  }

  function LastYearCount(loans: seq<Loan>, today: Date): int {
    SumInt(loans, l => if InLastYear(l, today) then 1 else 0)
  }

  function EmiPaid(loans: seq<Loan>): int {
    SumInt(loans, (l: Loan) => l.emisPaidOnTime)
  }

  function TotalEmi(loans: seq<Loan>, today: Date): int {
    SumInt(loans, l => LoanEmisTillDate(l, today))
  }

  /** The `loans` dictionary after line 95: every aggregate is a number. */
  datatype Aggregates = Aggregates(
    totalAmount: int,
    activeLoan: int,
    totalMonthlyPayment: real,
    totalLoan: int,
    lastYearLoan: int,
    emiPaid: int,
    totalEmi: int)

  /** The reference aggregates of a loan history. */
  function Aggregated(loans: seq<Loan>, today: Date): Aggregates {
    Aggregates(
      ActiveAmount(loans, today),
      ActiveCount(loans, today),
      ActiveMonthlyPayment(loans, today),
      |loans|,
      LastYearCount(loans, today),
      EmiPaid(loans),
      TotalEmi(loans, today))
  }

  /** What the aggregate query of lines 46-85 returns: SUM over no rows is NULL, COUNT is 0. */
  datatype QueryResult = QueryResult(
    totalAmount: Option<int>,
    activeLoan: Option<int>,
    totalMonthlyPayment: Option<real>,
    totalLoan: int,
    lastYearLoan: Option<int>,
    emiPaid: Option<int>)

  function Query(loans: seq<Loan>, today: Date): (q: QueryResult)
    ensures q.totalLoan == |loans|
    ensures |loans| == 0 <==> q.totalAmount.None?
    ensures q.totalAmount.None? == q.activeLoan.None? == q.totalMonthlyPayment.None?
    ensures q.totalAmount.None? == q.lastYearLoan.None? == q.emiPaid.None?
  {
    if |loans| == 0 then QueryResult(None, None, None, 0, None, None)
    else QueryResult(
      Some(ActiveAmount(loans, today)),
      Some(ActiveCount(loans, today)),
      Some(ActiveMonthlyPayment(loans, today)),
      |loans|,
      Some(LastYearCount(loans, today)),
      Some(EmiPaid(loans)))
  }

  /** Lines 92-95: add `total_emi` and replace every missing aggregate by 0. */
  function Normalize(q: QueryResult, totalEmi: int): Aggregates {
    Aggregates(
      OrZeroInt(q.totalAmount),
      OrZeroInt(q.activeLoan),
      OrZeroReal(q.totalMonthlyPayment),
      q.totalLoan,
      OrZeroInt(q.lastYearLoan),
      OrZeroInt(q.emiPaid),
      totalEmi)
  }

  /** `total_emi or 1`. */
  function Divisor(totalEmi: int): int {
    if totalEmi == 0 then 1 else totalEmi
  }

  function Min(a: int, b: int): int {
    if a <= b then a else b
  }

  function MinReal(a: real, b: real): real {
    if a <= b then a else b
  }

  /** `emis_paid_on_time_factor` (line 99): installments paid on time per installment due. */
  function PaidOnTimeFactor(emiPaid: int, totalEmi: int): (f: real)
    ensures totalEmi == 0 ==> f == emiPaid as real
    ensures 0 <= emiPaid <= totalEmi ==> 0.0 <= f <= 1.0
  {
    var q := emiPaid as real / Divisor(totalEmi) as real;
    if 0 < emiPaid <= totalEmi then
      RatioAtMostOne(emiPaid as real, totalEmi as real);
      q
    else q
  }

  /** A part over a larger whole is a fraction between 0 and 1. */
  lemma RatioAtMostOne(part: real, whole: real)
    requires 0.0 < part <= whole
    ensures 0.0 < part / whole <= 1.0
  {
    assert (part / whole) * whole == part;
  }

  /** The score before Python's `round` (lines 99-104). */
  function RawScore(agg: Aggregates): (s: real)
    ensures s <= 100.0
  {
    Min(20, agg.lastYearLoan * 10) as real
      + MinReal(80.0, Min(80, agg.totalLoan * 30) as real * PaidOnTimeFactor(agg.emiPaid, agg.totalEmi))
  }

  /** The credit score the aggregates give a customer (lines 97-105). */
  function Score(customer: Customer, agg: Aggregates): (s: int)
    ensures s <= 100
  {
    if customer.approvedLimit <= agg.totalAmount then 0
    else RoundHalfEven(RawScore(agg))
  }

  /** `calculate_credit_score(customer)` over the loan table as it stands `today`. */
  method CalculateCreditScore(customer: Customer, table: seq<Loan>, today: Date)
    returns (score: int, agg: Aggregates)
    ensures agg == Aggregated(LoansOf(table, customer.customerId), today)
    ensures score == Score(customer, agg)
    ensures score <= 100
    ensures customer.approvedLimit <= agg.totalAmount ==> score == 0
  {
    var loans := LoansOf(table, customer.customerId);
    var query := Query(loans, today);
    var totalEmi := 0;
    var i := 0;
    while i < |loans|
      invariant 0 <= i <= |loans|
      invariant totalEmi == TotalEmi(loans[..i], today)
    {
      var l := loans[i];
      assert loans[..i + 1][..i] == loans[..i];
      totalEmi := totalEmi + EmisTillDate(l.tenure, l.emisPaidOnTime, l.dateOfApproval, l.endDate, today);
      i := i + 1;
    }
    assert loans[..i] == loans;
    agg := Normalize(query, totalEmi);
    NormalizedQueryIsAggregated(loans, today);
    ScoreAtMost100(customer, agg);
    if customer.approvedLimit <= agg.totalAmount {
      score := 0;
      return;
    }
    var emisPaidOnTimeFactor := PaidOnTimeFactor(agg.emiPaid, agg.totalEmi);
    var allLoans := agg.totalLoan * 30;
    var lastYearLoan := agg.lastYearLoan * 10;
    var creditScore := Min(20, lastYearLoan) as real
      + MinReal(80.0, Min(80, allLoans) as real * emisPaidOnTimeFactor);
    assert creditScore == RawScore(agg);
    score := RoundHalfEven(creditScore);
  }

  /** Filling in the missing aggregates with 0 gives exactly the reference sums. */
  lemma NormalizedQueryIsAggregated(loans: seq<Loan>, today: Date)
    ensures Normalize(Query(loans, today), TotalEmi(loans, today)) == Aggregated(loans, today)
  {
  }

  // ---- calculate_emis_till_date ----

  /** A loan past its end date, or paid in full, counts its whole tenure. */
  lemma EmisTillDateOfClosedLoan(tenure: int, emisPaidOnTime: int, approval: Date, endDate: Date, today: Date)
    requires Before(endDate, today) || emisPaidOnTime == tenure
    ensures EmisTillDate(tenure, emisPaidOnTime, approval, endDate, today) == tenure
  {
  }

  /**
   * Otherwise the count is the number of calendar months from approval to
   * today: it depends only on the two (year, month) pairs, never on the day.
   */
  lemma EmisTillDateOfOpenLoan(tenure: int, emisPaidOnTime: int, approval: Date, endDate: Date, today: Date)
    requires AtMost(today, endDate) && emisPaidOnTime != tenure
    ensures EmisTillDate(tenure, emisPaidOnTime, approval, endDate, today) == MonthIndex(today) - MonthIndex(approval)
    ensures forall d :: 1 <= d <= DaysInMonth(today.year, today.month) && AtMost(today.(day := d), endDate) ==>
      EmisTillDate(tenure, emisPaidOnTime, approval, endDate, today.(day := d))
        == EmisTillDate(tenure, emisPaidOnTime, approval.(day := 1), endDate, today)
  {
  }

  /** An active loan is always counted by elapsed months. */
  lemma EmisTillDateOfActiveLoan(l: Loan, today: Date)
    requires IsActive(l, today)
    ensures LoanEmisTillDate(l, today) == MonthIndex(today) - MonthIndex(l.dateOfApproval)
  {
  }

  /**
   * For a loan whose end date lies `tenure` months after its approval (the
   * month-end clamping keeps that true), approved no later than today, the
   * count is between 0 and the tenure.
   */
  lemma EmisTillDateWithinTenure(l: Loan, today: Date)
    requires IsValid(l.dateOfApproval) && IsValid(l.endDate) && IsValid(today) && l.tenure >= 0
    requires MonthIndex(l.endDate) == MonthIndex(l.dateOfApproval) + l.tenure
    requires AtMost(l.dateOfApproval, today)
    ensures 0 <= LoanEmisTillDate(l, today) <= l.tenure
  {
    if !(Before(l.endDate, today) || l.emisPaidOnTime == l.tenure) {
      assert MonthIndex(today) <= MonthIndex(l.endDate);
      assert MonthIndex(l.dateOfApproval) <= MonthIndex(today);
    }
  }

  /** Approval no later than today and a non-negative tenure make the count non-negative. */
  lemma EmisTillDateNonNegative(l: Loan, today: Date)
    requires IsValid(l.dateOfApproval) && IsValid(today) && l.tenure >= 0
    requires AtMost(l.dateOfApproval, today)
    ensures LoanEmisTillDate(l, today) >= 0
  {
    assert MonthIndex(l.dateOfApproval) <= MonthIndex(today);
  }

  // ---- the aggregates ----

  function ActiveLoans(loans: seq<Loan>, today: Date): (r: seq<Loan>)
    ensures forall l :: l in r <==> l in loans && IsActive(l, today)
  {
    if |loans| == 0 then []
    else var rest := ActiveLoans(loans[..|loans| - 1], today);
      var l := loans[|loans| - 1];
      assert forall x :: x in loans <==> x in loans[..|loans| - 1] || x == l;
      if IsActive(l, today) then rest + [l] else rest
  }

  /** The active loans keep every copy of an active row, as many times as the history holds it. */
  lemma {:induction false} ActiveLoansMultiplicity(loans: seq<Loan>, today: Date)
    ensures forall l :: multiset(ActiveLoans(loans, today))[l] == (if IsActive(l, today) then multiset(loans)[l] else 0)
  {
    if |loans| > 0 {
      ActiveLoansMultiplicity(loans[..|loans| - 1], today);
      assert loans == loans[..|loans| - 1] + [loans[|loans| - 1]];
    }
  }

  /**
   * The `Case`/`When` sums of lines 47-73 are sums over the active loans
   * alone: `total_amount` is their amounts, `active_loan` their number and
   * `total_monthly_payment` their installments.
   */
  lemma {:induction false} ActiveAggregatesSumActiveLoans(loans: seq<Loan>, today: Date)
    ensures ActiveAmount(loans, today) == SumInt(ActiveLoans(loans, today), (l: Loan) => l.loanAmount)
    ensures ActiveCount(loans, today) == |ActiveLoans(loans, today)|
    ensures ActiveMonthlyPayment(loans, today) == SumReal(ActiveLoans(loans, today), (l: Loan) => l.monthlyPayment)
  {
    if |loans| > 0 {
      var init, l := loans[..|loans| - 1], loans[|loans| - 1];
      ActiveAggregatesSumActiveLoans(init, today);
      var rest := ActiveLoans(init, today);
      if IsActive(l, today) {
        assert ActiveLoans(loans, today) == rest + [l];
        assert (rest + [l])[..|rest|] == rest;
      } else {
        assert ActiveLoans(loans, today) == rest;
      }
    }
  }

  /** With every loan approved by today and non-negative counts, no aggregate is negative. */
  lemma {:induction false} AggregatesNonNegative(loans: seq<Loan>, today: Date)
    requires IsValid(today)
    requires forall l :: l in loans ==>
      IsValid(l.dateOfApproval) && AtMost(l.dateOfApproval, today) && l.tenure >= 0 && l.emisPaidOnTime >= 0
    ensures EmiPaid(loans) >= 0 && TotalEmi(loans, today) >= 0
    ensures LastYearCount(loans, today) >= 0
  {
    if |loans| > 0 {
      var init, l := loans[..|loans| - 1], loans[|loans| - 1];
      assert forall x :: x in init ==> x in loans;
      AggregatesNonNegative(init, today);
      EmisTillDateNonNegative(l, today);
    }
  }

  // ---- the score ----

  /** The score never exceeds 100, whatever the aggregates (20 and 80 cap its two parts). */
  lemma ScoreAtMost100(customer: Customer, agg: Aggregates)
    ensures Score(customer, agg) <= 100
  {
    var raw := RawScore(agg);
    assert raw <= 100.0;
    RoundHalfEvenMonotone(raw, 100.0);
    RoundHalfEvenOfInt(100);
  }

  /** Active borrowing at or above the approved limit scores 0, whatever else holds. */
  lemma OverLimitScoresZero(customer: Customer, agg: Aggregates)
    requires customer.approvedLimit <= agg.totalAmount
    ensures Score(customer, agg) == 0
  {
  }

  /** Non-negative counts and a non-negative `total_emi` give a score of at least 0. */
  lemma ScoreNonNegative(customer: Customer, agg: Aggregates)
    requires agg.totalLoan >= 0 && agg.lastYearLoan >= 0 && agg.emiPaid >= 0 && agg.totalEmi >= 0
    ensures Score(customer, agg) >= 0
  {
    var factor := PaidOnTimeFactor(agg.emiPaid, agg.totalEmi);
    assert factor >= 0.0;
    assert Min(80, agg.totalLoan * 30) as real * factor >= 0.0;
    RoundHalfEvenMonotone(0.0, RawScore(agg));
    RoundHalfEvenOfInt(0);
  }

  /** A well-formed history scores between 0 and 100. */
  lemma ScoreInRange(customer: Customer, loans: seq<Loan>, today: Date)
    requires IsValid(today)
    requires forall l :: l in loans ==>
      IsValid(l.dateOfApproval) && AtMost(l.dateOfApproval, today) && l.tenure >= 0 && l.emisPaidOnTime >= 0
    ensures 0 <= Score(customer, Aggregated(loans, today)) <= 100
  {
    AggregatesNonNegative(loans, today);
    ScoreNonNegative(customer, Aggregated(loans, today));
    ScoreAtMost100(customer, Aggregated(loans, today));
  }

  /**
   * A customer without loans scores 0 (not 100): no loan volume and no
   * recent loans leave both parts of the score at 0.
   */
  lemma NoLoansScoresZero(customer: Customer, today: Date)
    ensures Score(customer, Aggregated([], today)) == 0
  {
    RoundHalfEvenOfInt(0);
  }

  lemma SumIntOfOne(l: Loan, f: Loan -> int)
    ensures SumInt([l], f) == f(l)
  {
    assert [l][..0] == [];
  }

  lemma SumRealOfOne(l: Loan, f: Loan -> real)
    ensures SumReal([l], f) == f(l)
  {
    assert [l][..0] == [];
  }

  /**
   * The lower bound needs `total_emi >= 0`: a loan whose approval month is
   * still ahead of today counts -2 installments due, and with one paid on
   * time the score is round(10 + 30 * (1 / -2)) = -5.
   */
  lemma FutureApprovalScoresNegative()
    ensures var l := Loan(1, 1, 1000, 12, 10.0, 100.0, 1, Date(2022, 8, 1), Date(2023, 8, 1));
      var c := Customer(1, "Ann", "Lee", 30, "0000000000", 5000.0, 100000);
      Score(c, Aggregated([l], Date(2022, 6, 1))) == -5
  {
    var l := Loan(1, 1, 1000, 12, 10.0, 100.0, 1, Date(2022, 8, 1), Date(2023, 8, 1));
    var today := Date(2022, 6, 1);
    assert [l][..0] == [];
    assert Ordinal(today) == 738307 && Ordinal(l.dateOfApproval) == 738368;
    assert IsActive(l, today) && InLastYear(l, today);
    assert LoanEmisTillDate(l, today) == -2;
    assert Aggregated([l], today) == Aggregates(1000, 1, 100.0, 1, 1, 1, -2) by {
      SumIntOfOne(l, x => if IsActive(x, today) then x.loanAmount else 0);
      SumIntOfOne(l, x => if IsActive(x, today) then 1 else 0);
      SumRealOfOne(l, x => if IsActive(x, today) then x.monthlyPayment else 0.0);
      SumIntOfOne(l, x => if InLastYear(x, today) then 1 else 0);
      SumIntOfOne(l, (x: Loan) => x.emisPaidOnTime);
      SumIntOfOne(l, x => LoanEmisTillDate(x, today));
    }
    var agg := Aggregated([l], today);
    assert RawScore(agg) == -5.0;
    RoundHalfEvenOfInt(-5);
  }
}
