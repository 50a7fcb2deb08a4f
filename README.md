# Credit approval backend: scoring and eligibility engine

This Dafny project models the decision core of a credit-approval backend:

- the elapsed-installments estimate for one loan (`calculate_emis_till_date`);
- the credit score, from 0 to 100, computed from a customer's loan history (`calculate_credit_score`);
- the reducing-balance monthly installment (`calculate_emi`);
- the eligibility ladder (`determine_loan_eligibility`). An affordability gate comes first. Three score bands follow, and two of them can raise the requested rate to 12 % or 16 %.
- the approved limit set once, at registration (`CustomerSerializer.calculate_approved_limit` and `create`).

Modules:

- `Wrappers`: `Option` and `Result` types.
- `PyRound`: Python's `round`, half to even, on exact reals.
- `Dates`: `datetime.date` as a `(year, month, day)` record. Dates compare lexicographically. `Ordinal` is `toordinal()`, so `today - timedelta(days=365)` is the date whose ordinal is 365 smaller.
- `Models`: the `Customer` and `Loan` rows.
- `Emi`, `CreditScore` and `Eligibility`: the three parts of `core/utils.py`.
- `Serializers`: `core/serializers.py`.
- `Scenarios`: the sample customer and loans from the repository's tests, evaluated on a fixed day.

"Today" is an explicit parameter everywhere. The database aggregate is written in two forms:

- `CreditScore.Query` keeps SQL's NULL for a SUM over no rows.
- `CreditScore.Aggregated` is the same aggregate as plain recursive sums.

The dictionary clean-up at lines 92-95 turns the first into the second (`NormalizedQueryIsAggregated`). `CalculateCreditScore` is the procedure: it accumulates `total_emi` in a loop, as the source does. `DetermineLoanEligibility` is the procedure for the ladder and updates `res_data` and `msg` in turn. Each is proved equal to a specification function, and the properties are proved about those functions. `Create` updates the validated-data dictionary, a `ValidatedData` object whose `fields` map it reassigns.

Where the English description and the code disagree, the model follows the code:

- A customer with no loans scores 0 (`NoLoansScoresZero`). The docstring at core/utils.py:34 says 100.
- The score can be 0, although the docstring at core/utils.py:35 says `0 < score`. It can even be negative when an approval month lies after today (`FutureApprovalScoresNegative`).
- At a zero rate, `calculate_emi` divides by zero. The model returns `Err(ZeroDivisionError)` there (`CalculateEmiFails`); the source has no zero-rate fallback, and neither does the model.

## Model

| member | source | states |
|---|---|---|
| `PyRound.RoundHalfEven` | core/utils.py:105 | `round(x)`: an integer within 1/2 of x; ties and order in `RoundHalfEvenNearest`, `RoundHalfEvenTie`, `RoundHalfEvenMonotone` |
| `PyRound.Round2` | core/utils.py:115 | `round(x, 2)`: a whole number of hundredths within 0.005 of x; order in `Round2Monotone` |
| `PyRound.RoundHalfEvenNearest` | core/utils.py:105 | `round(x)` is within 1/2 of x, and strictly so unless x is a tie |
| `PyRound.RoundHalfEvenTie` | core/serializers.py:22 | on a tie, `round` returns the even one of the two neighbours |
| `PyRound.RoundHalfEvenMonotone` | core/utils.py:105 | rounding preserves the order of its arguments |
| `Dates.OrdinalOrder` | core/utils.py:78 | on valid dates, comparing ordinals is comparing dates, so the 365-day cutoff can be tested through ordinals |
| `Models.LoansOf` | core/utils.py:46 | the customer's loans are exactly the table rows that carry the customer's id |
| `Models.LoansOfMultiplicity` | core/utils.py:46 | the filter keeps each of the customer's rows as many times as the table holds it, and no other row |
| `Models.LoansOfSingleOwner` | core/utils.py:86-88 | a table holding only one customer's loans is that customer's whole history, in order |
| `Emi.MonthlyRate` | core/utils.py:111 | the monthly rate is 0 exactly when the annual rate is, and positive exactly when it is |
| `Emi.IntPow` | core/utils.py:112-113 | in exact arithmetic, `x ** n` fails exactly for 0.0 to a negative power; a negative power is the inverse of the positive one |
| `Emi.Annuity` | core/utils.py:112-114 | numerator over denominator for `g = (1 + r) ** tenure`, defined whenever the denominator `g - 1` is not 0; equal to the loan amount over the present value in `AnnuityAsPresentValue` |
| `Emi.ExactEmi` | core/utils.py:111-114 | the unrounded quotient; its failures in `CalculateEmiFails`, its linearity in `ExactEmiLinear`, repayment in `ExactEmiRepaysLoan`, present value in `AnnuityAsPresentValue` |
| `Emi.CalculateEmi` | core/utils.py:108-115 | the installment exists exactly when the unrounded quotient does; it is then a whole number of hundredths and within 0.005 of that quotient |
| `Emi.CalculateEmiFails` | core/utils.py:111-114 | in exact arithmetic the formula is undefined exactly for tenure 0, rate 0, rate -2400 % with an even tenure, and rate -1200 % with a negative tenure; the amount plays no part |
| `Emi.CalculateEmiDefined` | core/utils.py:111-114 | a positive rate and a tenure of at least 1 always give an installment |
| `Emi.ExactEmiLinear` | core/utils.py:112-114 | before rounding, the installment is the loan amount times the installment for a loan of 1 |
| `Emi.ExactEmiRepaysLoan` | core/utils.py:111-114 | `tenure` payments of the unrounded installment, with monthly interest added, leave a balance of exactly 0 |
| `Emi.CalculateEmiMonotoneInAmount` | core/utils.py:108-115 | at a positive rate and at least one month, a larger loan never gets a smaller rounded installment |
| `Emi.CalculateEmiMonotoneInRate` | core/utils.py:108-115 | for a positive loan amount and at least one month, a higher positive rate gives a strictly larger unrounded installment and a rounded one that is no smaller |
| `Emi.AnnuityAsPresentValue` | core/utils.py:111-114 | for a positive rate, the formula equals the loan amount divided by the present value of `tenure` unit payments |
| `CreditScore.EmisTillDate` | core/utils.py:14-27 | `calculate_emis_till_date`; its two branches in `EmisTillDateOfClosedLoan` and `EmisTillDateOfOpenLoan`, its range in `EmisTillDateWithinTenure` and `EmisTillDateNonNegative` |
| `CreditScore.IsActive` | core/utils.py:43-45 | the active-loan predicate; the loans it keeps in `ActiveLoans`, the sums it selects in `ActiveAggregatesSumActiveLoans` |
| `CreditScore.ActiveAmount` | core/utils.py:47-55 | `total_amount`: the amounts of the active loans, by `ActiveAggregatesSumActiveLoans` |
| `CreditScore.ActiveCount` | core/utils.py:56-64 | `active_loan`: the number of active loans, by `ActiveAggregatesSumActiveLoans` |
| `CreditScore.ActiveMonthlyPayment` | core/utils.py:65-73 | `total_monthly_payment`: the installments of the active loans, by `ActiveAggregatesSumActiveLoans` |
| `CreditScore.InLastYear` | core/utils.py:75-83 | approval on or after the day 365 days before today, compared through ordinals, which `Dates.OrdinalOrder` shows is the date comparison |
| `CreditScore.LastYearCount` | core/utils.py:75-83 | `last_year_loan`: the number of loans approved on or after the cutoff; not negative by `AggregatesNonNegative` |
| `CreditScore.EmiPaid` | core/utils.py:84 | `emi_paid`: the installments paid on time over all loans; not negative by `AggregatesNonNegative` |
| `CreditScore.TotalEmi` | core/utils.py:89-91 | `total_emi`: the installments due by today over all loans, the value the loop of `CalculateCreditScore` is proved to reach; not negative by `AggregatesNonNegative` |
| `CreditScore.Aggregated` | core/utils.py:46-95 | the cleaned-up `loans` dictionary as plain sums; equal to the query's result in `NormalizedQueryIsAggregated`, non-negative in `AggregatesNonNegative` |
| `CreditScore.Normalize` | core/utils.py:92-95 | `total_emi` added and NULL sums replaced by 0; `NormalizedQueryIsAggregated` shows the result is `Aggregated` |
| `CreditScore.PaidOnTimeFactor` | core/utils.py:99 | `emi_paid / (total_emi or 1)`: with no installments due it is `emi_paid` itself, and it lies between 0 and 1 when no more were paid than are due |
| `CreditScore.RawScore` | core/utils.py:99-104 | the unrounded score is at most 100, the 20-point and 80-point caps together |
| `CreditScore.Score` | core/utils.py:97-105 | the rounded score is at most 100; the over-limit zero in `OverLimitScoresZero`, the lower bound in `ScoreNonNegative` and `ScoreInRange` |
| `CreditScore.EmisTillDateOfClosedLoan` | core/utils.py:22-23 | a loan past its end date, or fully paid, counts its whole tenure |
| `CreditScore.EmisTillDateOfOpenLoan` | core/utils.py:24-27 | otherwise the count is the months from approval to today, and the days of both dates play no part |
| `CreditScore.EmisTillDateOfActiveLoan` | core/utils.py:22-27 | an active loan is always counted by elapsed months |
| `CreditScore.EmisTillDateWithinTenure` | core/utils.py:22-27 | when the end date is `tenure` months after approval and approval is not after today, the count is between 0 and the tenure |
| `CreditScore.EmisTillDateNonNegative` | core/utils.py:22-27 | when approval is not after today and the tenure is not negative, the count is not negative |
| `CreditScore.Query` | core/utils.py:46-85 | the query counts every loan; its sums are NULL exactly when there are no loans |
| `CreditScore.NormalizedQueryIsAggregated` | core/utils.py:89-95 | with `total_emi` added and NULLs replaced by 0, the query result equals the plain sums |
| `CreditScore.ActiveLoans` | core/utils.py:43-45 | a loan is kept iff its end date is not before today and its tenure exceeds the installments paid on time |
| `CreditScore.ActiveLoansMultiplicity` | core/utils.py:43-45 | the active loans keep each active row as many times as the history holds it, and no inactive row |
| `CreditScore.ActiveAggregatesSumActiveLoans` | core/utils.py:47-73 | `total_amount`, `active_loan` and `total_monthly_payment` are the amounts, the count and the installments of the active loans only |
| `CreditScore.AggregatesNonNegative` | core/utils.py:74-91 | with approvals not after today and non-negative counts, `emi_paid`, `total_emi` and `last_year_loan` are not negative |
| `CreditScore.CalculateCreditScore` | core/utils.py:30-105 | returns the reference aggregates of the customer's loans and the score they give; the score is at most 100 and is 0 at or over the limit |
| `CreditScore.ScoreAtMost100` | core/utils.py:99-105 | the score never exceeds 100, whatever the aggregates |
| `CreditScore.OverLimitScoresZero` | core/utils.py:97-98 | active principal at or above the approved limit gives a score of 0, whatever the other aggregates |
| `CreditScore.ScoreNonNegative` | core/utils.py:99-105 | non-negative counts and a non-negative `total_emi` give a score of at least 0 |
| `CreditScore.ScoreInRange` | core/utils.py:30-105 | a history whose approvals are not after today, with non-negative counts, scores from 0 to 100 |
| `CreditScore.NoLoansScoresZero` | core/utils.py:97-105 | a customer without loans scores 0 |
| `CreditScore.FutureApprovalScoresNegative` | core/utils.py:24-27 | a loan approved in a later month than today can give a score of -5 |
| `Eligibility.ExceedsHalfSalary` | core/utils.py:142-145 | the gate: active payments plus the new installment exceed half the salary; the ladder lemmas `AffordabilityGateFirst`, `HighScoreApproved`, `BandedScoreCorrection`, `LowScoreRejected` are stated through it |
| `Eligibility.RaiseTo` | core/utils.py:152-166 | one score band with a minimum rate; its outcomes in `BandedScoreCorrection` and `CorrectionNeverLowersInstallment` |
| `Eligibility.Decide` | core/utils.py:133-168 | the ladder at a given score and active monthly payments; characterized completely in `DecisionCharacterized`, rule by rule in `AffordabilityGateFirst`, `HighScoreApproved`, `BandedScoreCorrection`, `LowScoreRejected` |
| `Eligibility.LoanEligibility` | core/utils.py:118-168 | `Decide` at the customer's own score and active monthly payments, the specification `DetermineLoanEligibility` is proved against |
| `Eligibility.DetermineLoanEligibility` | core/utils.py:118-168 | the procedure returns the ladder's decision at the customer's own score and active monthly payments |
| `Eligibility.AffordabilityGateFirst` | core/utils.py:142-147 | an installment that takes payments past half the salary is refused at the asked rate, whatever the score |
| `Eligibility.HighScoreApproved` | core/utils.py:149-150 | above 50, an affordable loan is approved at the asked rate |
| `Eligibility.BandedScoreCorrection` | core/utils.py:152-166 | in (30, 50] and (10, 30], an affordable loan is approved; a rate below 12 or 16 is raised to it, and the installment recomputed at that rate always exists |
| `Eligibility.LowScoreRejected` | core/utils.py:168 | at 10 or below, an affordable loan is refused |
| `Eligibility.DecisionCharacterized` | core/utils.py:133-168 | fails iff the first installment fails; eligible iff affordable and score above 10; corrected iff affordable and below the band floor; a corrected quote is eligible and at a higher rate |
| `Eligibility.CorrectionNeverLowersInstallment` | core/utils.py:155-164 | at a positive amount and rate, the corrected installment is at least the one at the asked rate |
| `Eligibility.CorrectedQuoteSkipsGate` | core/utils.py:142-166 | the gate is not re-checked after correction: salary 201, asking 100 over 1 month, is quoted 101.33 at 16 % and is still eligible |
| `Serializers.CalculateApprovedLimit` | core/serializers.py:20-22 | the approved limit is a multiple of 100,000 |
| `Serializers.ApprovedLimitNearest` | core/serializers.py:22 | the limit is within 50,000 of 36 times the monthly salary |
| `Serializers.ApprovedLimitTiesToEven` | core/serializers.py:22 | when `36 * salary / 100000` ends in .5, the limit divided by 100,000 is even |
| `Serializers.ApprovedLimitTieExamples` | core/serializers.py:22 | a salary of 12,500 gets 400,000, and 37,500 gets 1,400,000 |
| `Serializers.ApprovedLimitMonotone` | core/serializers.py:22 | a higher salary never gets a lower limit |
| `Serializers.ApprovedLimitNonNegative` | core/serializers.py:22 | a non-negative salary gets a non-negative limit |
| `Serializers.ApprovedLimitOfFiftyThousand` | core/tests.py:17-23 | a salary of 50,000 gets 1,800,000 |
| `Serializers.WritableInput` | core/serializers.py:9-18 | the validated data holds only writable request fields, never `customer_id` or `approved_limit` |
| `Serializers.WithApprovedLimit` | core/serializers.py:25-27 | the dictionary gains `approved_limit`, a multiple of 100,000, and keeps every other key and value |
| `Serializers.Create` | core/serializers.py:24-28 | `approved_limit` is set from the salary, and every other validated field is unchanged |
| `Serializers.ReadOnlyFieldsIgnored` | core/serializers.py:18-28 | whatever a client sends as `customer_id` or `approved_limit`, the created data are the same |
| `Scenarios.FixtureScore` | core/loan_test_data.py:4-50 | on 1 June 2022 the sample history has two active loans and one loan in the last year, and scores 90 |
| `Scenarios.ApprovedAtSameRate` | core/tests.py:54-64 | 100,000 over 10 months at 8 % is approved at 8 % |
| `Scenarios.RejectedOverHalfSalary` | core/tests.py:66-76 | 1,000,000 over 3 months at 8 % is refused by the affordability gate, still at 8 % |
| `Scenarios.MostlyUnpaidScore` | core/tests.py:78-85 | with four loans unpaid and the fifth paid in full, the score is 11 |
| `Scenarios.ApprovedWithUpdatedRate` | core/tests.py:78-96 | in that case 8 % is raised to 16 % and the loan is approved |

## Left out

- Binary floating point. Amounts, rates and salaries are exact reals. `round` is modelled as the exact half-to-even rule (`PyRound`), so none of the float representation error of `**`, `/` or `round` is modelled.
- The wall clock. `datetime.today()` is the `today` parameter. The source reads the clock separately at core/utils.py:21 (once per loan), 43 and 78, so a call that spans midnight can mix two dates; the single `today` parameter rules that out.
- `Emi.CalculateEmiFails` characterizes failure in exact arithmetic only. In floats, core/utils.py:112-113 also raises `OverflowError` when `(1 + r) ** tenure_months` leaves the float range (rate 1200 % over 1100 months gives `2.0 ** 1100`), and `ZeroDivisionError` when `r` is so small that `1 + r == 1.0` (a rate of 1e-15 %).
- The OverflowError that `today - timedelta(days=365)` raises for a today in the first 365 days of year 1 is not modelled.
- The ORM. The query and `values_list` become functions over the customer's loans in table order, and the customer's loans are the rows selected by `LoansOf`.
- The `super().create` call at core/serializers.py:28, which saves the row and assigns `customer_id`. `Create` models the dictionary update only.
- DRF's type checks on request fields. `Create` requires the `monthly_salary` entry that validation guarantees.
- The computation of a loan's end date (approval date plus tenure months, with month-end clamping). That code is not part of this model. `EmisTillDateWithinTenure` takes its month arithmetic as a hypothesis.
- The views for eligibility checks, loan creation and loan listing are not part of this model. The same goes for HTTP routing, the Excel import and the migrations.
- The message strings of `core.constants` are not part of this model. They are the five `Message` values.
