/**
 * The sample customer and loan history of core/tests.py and
 * core/loan_test_data.py, evaluated on a fixed day, 1 June 2022, on which
 * the three eligibility tests of core/tests.py come out as they expect.
 */
module Scenarios {
  import opened Wrappers
  import opened Dates
  import opened Models
  import opened CreditScore
  import opened Eligibility

  const Today: Date := Date(2022, 6, 1)

  const John: Customer := Customer(1, "John", "Doe", 25, "1234567890", 253000.0, 3900000)

  /** The five fixture loans, with the paid-on-time counts given per loan. */
  function History(paid: seq<int>): seq<Loan>
    requires |paid| == 5
  {
    [ Loan(1, 1, 900000, 129, 8.2, 15344.0, paid[0], Date(2017, 3, 9), Date(2027, 12, 9)),
      Loan(2, 1, 600000, 129, 8.11, 10144.0, paid[1], Date(2013, 8, 14), Date(2024, 5, 14)),
      Loan(3, 1, 700000, 33, 16.32, 28701.0, paid[2], Date(2015, 2, 6), Date(2017, 11, 6)),
      Loan(4, 1, 800000, 99, 13.19, 21773.0, paid[3], Date(2010, 4, 4), Date(2018, 7, 4)),
      Loan(5, 1, 700000, 3, 10.2, 233333.0, paid[4], Date(2021, 12, 23), Date(2022, 3, 23)) ]
  }

  /** The fixture as given. */
  const AsGiven: seq<int> := [114, 77, 33, 87, 3]

  /** The first four loans with nothing paid on time, the last paid in full. */
  const MostlyUnpaid: seq<int> := [0, 0, 0, 0, 3]

  lemma SumIntOfFive(s: seq<Loan>, f: Loan -> int)
    requires |s| == 5
    ensures SumInt(s, f) == f(s[0]) + f(s[1]) + f(s[2]) + f(s[3]) + f(s[4])
  {
    assert s[..4][..3] == s[..3] && s[..4][3] == s[3];
    assert s[..3][..2] == s[..2] && s[..3][2] == s[2];
    assert s[..2][..1] == s[..1] && s[..2][1] == s[1];
    assert s[..1][..0] == [] && s[..1][0] == s[0];
    assert SumInt(s, f) == SumInt(s[..4], f) + f(s[4]);
    assert SumInt(s[..4], f) == SumInt(s[..3], f) + f(s[3]);
    assert SumInt(s[..3], f) == SumInt(s[..2], f) + f(s[2]);
    assert SumInt(s[..2], f) == SumInt(s[..1], f) + f(s[1]);
    assert SumInt(s[..1], f) == SumInt([], f) + f(s[0]);
  }

  lemma SumRealOfFive(s: seq<Loan>, f: Loan -> real)
    requires |s| == 5
    ensures SumReal(s, f) == f(s[0]) + f(s[1]) + f(s[2]) + f(s[3]) + f(s[4])
  {
    assert s[..4][..3] == s[..3] && s[..4][3] == s[3];
    assert s[..3][..2] == s[..2] && s[..3][2] == s[2];
    assert s[..2][..1] == s[..1] && s[..2][1] == s[1];
    assert s[..1][..0] == [] && s[..1][0] == s[0];
    assert SumReal(s, f) == SumReal(s[..4], f) + f(s[4]);
    assert SumReal(s[..4], f) == SumReal(s[..3], f) + f(s[3]);
    assert SumReal(s[..3], f) == SumReal(s[..2], f) + f(s[2]);
    assert SumReal(s[..2], f) == SumReal(s[..1], f) + f(s[1]);
    assert SumReal(s[..1], f) == SumReal([], f) + f(s[0]);
  }

  /** The per-loan facts both histories share: which loans are active, recent, and how many installments fell due. */
  lemma FixtureFacts(paid: seq<int>)
    requires |paid| == 5 && paid[0] < 129 && paid[1] < 129 && paid[4] == 3
    ensures var h := History(paid);
      && IsActive(h[0], Today) && IsActive(h[1], Today)
      && !IsActive(h[2], Today) && !IsActive(h[3], Today) && !IsActive(h[4], Today)
      && !InLastYear(h[0], Today) && !InLastYear(h[1], Today) && !InLastYear(h[2], Today)
      && !InLastYear(h[3], Today) && InLastYear(h[4], Today)
      && LoanEmisTillDate(h[0], Today) == 63 && LoanEmisTillDate(h[1], Today) == 106
      && LoanEmisTillDate(h[2], Today) == 33 && LoanEmisTillDate(h[3], Today) == 99
      && LoanEmisTillDate(h[4], Today) == 3
  {
    assert Ordinal(Today) == 738307;
    assert Ordinal(Date(2021, 12, 23)) == 738147;
    assert Ordinal(Date(2017, 3, 9)) < 738307 - 365;
    assert Ordinal(Date(2013, 8, 14)) < 738307 - 365;
    assert Ordinal(Date(2015, 2, 6)) < 738307 - 365;
    assert Ordinal(Date(2010, 4, 4)) < 738307 - 365;
  }

  /** The aggregates of either history on that day. */
  lemma FixtureAggregates(paid: seq<int>)
    requires |paid| == 5 && paid[0] < 129 && paid[1] < 129 && paid[4] == 3
    ensures Aggregated(LoansOf(History(paid), 1), Today)
      == Aggregates(1500000, 2, 25488.0, 5, 1, paid[0] + paid[1] + paid[2] + paid[3] + 3, 304)
  {
    var h := History(paid);
    LoansOfSingleOwner(h, 1);
    FixtureFacts(paid);
    SumIntOfFive(h, l => if IsActive(l, Today) then l.loanAmount else 0);
    SumIntOfFive(h, l => if IsActive(l, Today) then 1 else 0);
    SumRealOfFive(h, l => if IsActive(l, Today) then l.monthlyPayment else 0.0);
    SumIntOfFive(h, l => if InLastYear(l, Today) then 1 else 0);
    SumIntOfFive(h, (l: Loan) => l.emisPaidOnTime);
    SumIntOfFive(h, l => LoanEmisTillDate(l, Today));
  }

  /** The fixture scores 90 on that day: two active loans, one loan in the last year, more paid than due. */
  lemma FixtureScore()
    ensures Aggregated(LoansOf(History(AsGiven), 1), Today)
      == Aggregates(1500000, 2, 25488.0, 5, 1, 314, 304)
    ensures Score(John, Aggregated(LoansOf(History(AsGiven), 1), Today)) == 90
  {
    FixtureAggregates(AsGiven);
    ScoreWhenPaidAsGiven();
  }

  /** John's score from the fixture's aggregates when 314 installments were paid on time. */
  lemma ScoreWhenPaidAsGiven()
    ensures Score(John, Aggregates(1500000, 2, 25488.0, 5, 1, 314, 304)) == 90
  {
    assert RawScore(Aggregates(1500000, 2, 25488.0, 5, 1, 314, 304)) == 90.0;
    PyRound.RoundHalfEvenOfInt(90);
  }

  /** John's score from the fixture's aggregates when only 3 installments were paid on time. */
  lemma ScoreWhenMostlyUnpaid()
    ensures Score(John, Aggregates(1500000, 2, 25488.0, 5, 1, 3, 304)) == 11
  {
    assert RawScore(Aggregates(1500000, 2, 25488.0, 5, 1, 3, 304)) == 10.0 + 240.0 / 304.0;
    assert (10.0 + 240.0 / 304.0).Floor == 10;
  }

  /** 100,000 over 10 months at 8 % costs well under the room left in half of John's salary. */
  lemma SmallLoanAffordable()
    ensures Emi.CalculateEmi(100000.0, 10, 8.0).Ok?
    ensures !ExceedsHalfSalary(25488.0, Emi.CalculateEmi(100000.0, 10, 8.0).value, John.monthlySalary)
  {
  }

  /** 100,000 over 10 months at 8 % is affordable and approved at 8 % (the fixture as given). */
  lemma ApprovedAtSameRate()
    ensures var r := LoanEligibility(100000.0, 8.0, 10, John, History(AsGiven), Today);
      r.Ok? && r.value.isEligible && !r.value.isInterestRateUpdated && r.value.loanData.interestRate == 8.0
  {
    FixtureScore();
    SmallLoanAffordable();
    HighScoreApproved(100000.0, 8.0, 10, John.monthlySalary, 25488.0, 90);
  }

  /** 1,000,000 over 3 months at 8 % takes the payments past half the salary and is refused at 8 %. */
  lemma RejectedOverHalfSalary()
    ensures var r := LoanEligibility(1000000.0, 8.0, 3, John, History(AsGiven), Today);
      r.Ok? && !r.value.isEligible && r.value.loanData.interestRate == 8.0
      && r.value.message == MonthlyPaymentExceeds50
  {
    FixtureScore();
    LargeLoanUnaffordable();
    AffordabilityGateFirst(1000000.0, 8.0, 3, John.monthlySalary, 25488.0, 90);
  }

  /** 1,000,000 over 3 months at 8 % costs more than half of John's salary on its own. */
  lemma LargeLoanUnaffordable()
    ensures Emi.CalculateEmi(1000000.0, 3, 8.0).Ok?
    ensures ExceedsHalfSalary(25488.0, Emi.CalculateEmi(1000000.0, 3, 8.0).value, John.monthlySalary)
  {
  }

  /** With four loans unpaid the score drops to 11. */
  lemma MostlyUnpaidScore()
    ensures Score(John, Aggregated(LoansOf(History(MostlyUnpaid), 1), Today)) == 11
  {
    FixtureAggregates(MostlyUnpaid);
    ScoreWhenMostlyUnpaid();
  }

  /** With four loans unpaid, 8 % is raised to 16 % and the loan approved. */
  lemma ApprovedWithUpdatedRate()
    ensures var r := LoanEligibility(100000.0, 8.0, 10, John, History(MostlyUnpaid), Today);
      r.Ok? && r.value.isEligible && r.value.isInterestRateUpdated && r.value.loanData.interestRate == 16.0
  {
    FixtureAggregates(MostlyUnpaid);
    MostlyUnpaidScore();
    SmallLoanAffordable();
    BandedScoreCorrection(100000.0, 8.0, 10, John.monthlySalary, 25488.0, 11);
  }
}
