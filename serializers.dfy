/**
 * `CustomerSerializer` (core/serializers.py): the approved limit derived
 * from the monthly salary at registration, and `create`, which writes it
 * into the validated data in place before the row is saved.
 */
module Serializers {
  import opened PyRound

  /** `calculate_approved_limit`: `round(36 * salary / 100_000) * 100_000`. */
  function CalculateApprovedLimit(monthlySalary: real): (limit: int)
    ensures limit % 100000 == 0
  {
    RoundHalfEven(36.0 * monthlySalary / 100000.0) * 100000
  }

  /** The limit is the multiple of 100,000 nearest to 36 times the monthly salary. */
  lemma ApprovedLimitNearest(monthlySalary: real)
    ensures 36.0 * monthlySalary - 50000.0 <= CalculateApprovedLimit(monthlySalary) as real
    ensures CalculateApprovedLimit(monthlySalary) as real <= 36.0 * monthlySalary + 50000.0
  {
    var q := 36.0 * monthlySalary / 100000.0;
    RoundHalfEvenNearest(q);
    assert CalculateApprovedLimit(monthlySalary) as real == RoundHalfEven(q) as real * 100000.0;
  }

  /** When 36 * salary / 100,000 ends in exactly .5, the quotient goes to the even neighbour. */
  lemma ApprovedLimitTiesToEven(monthlySalary: real)
    requires var q := 36.0 * monthlySalary / 100000.0; q - q.Floor as real == 0.5
    ensures (CalculateApprovedLimit(monthlySalary) / 100000) % 2 == 0
  {
    RoundHalfEvenTie(36.0 * monthlySalary / 100000.0);
  }

  /** Two ties: 12,500 gives 4.5, rounded down to 4; 37,500 gives 13.5, rounded up to 14. */
  lemma ApprovedLimitTieExamples()
    ensures CalculateApprovedLimit(12500.0) == 400000
    ensures CalculateApprovedLimit(37500.0) == 1400000
  {
    assert 36.0 * 12500.0 / 100000.0 == 4.5;
    assert (4.5).Floor == 4;
    assert 36.0 * 37500.0 / 100000.0 == 13.5;
    assert (13.5).Floor == 13;
  }

  /** A higher salary never gets a lower limit. */
  lemma ApprovedLimitMonotone(lower: real, higher: real)
    requires lower <= higher
    ensures CalculateApprovedLimit(lower) <= CalculateApprovedLimit(higher)
  {
    RoundHalfEvenMonotone(36.0 * lower / 100000.0, 36.0 * higher / 100000.0);
  }

  /** A non-negative salary gets a non-negative limit. */
  lemma ApprovedLimitNonNegative(monthlySalary: real)
    requires monthlySalary >= 0.0
    ensures CalculateApprovedLimit(monthlySalary) >= 0
  {
    RoundHalfEvenMonotone(0.0, 36.0 * monthlySalary / 100000.0);
    RoundHalfEvenOfInt(0);
  }

  /** The registration example: a salary of 50,000 gets 1,800,000. */
  lemma ApprovedLimitOfFiftyThousand()
    ensures CalculateApprovedLimit(50000.0) == 1800000
  {
    assert 36.0 * 50000.0 / 100000.0 == 18.0;
    RoundHalfEvenOfInt(18);
  }

  /** A value of the validated-data dictionary. */
  datatype FieldValue = Int(i: int) | Real(x: real) | Text(s: string)

  /** The fields a client may write (`Meta.fields` less `Meta.read_only_fields`). */
  const WritableFields: set<string> := {"first_name", "last_name", "age", "phone_number", "monthly_salary"}

  /** The validated data keeps only writable fields of the request: `customer_id` and `approved_limit` are dropped. */
  function WritableInput(input: map<string, FieldValue>): (r: map<string, FieldValue>)
    ensures "customer_id" !in r && "approved_limit" !in r
    ensures forall k :: k in r <==> k in input && k in WritableFields
    ensures forall k :: k in r ==> r[k] == input[k]
  {
    map k | k in input && k in WritableFields :: input[k]
  }

  /** The dictionary `create` receives, updated in place. */
  class ValidatedData {
    var fields: map<string, FieldValue>

    constructor (fields: map<string, FieldValue>)
      ensures this.fields == fields
    {
      this.fields := fields;
    }
  }

  /** What `create` leaves in the dictionary: the approved limit set from the salary, nothing else changed. */
  function WithApprovedLimit(fields: map<string, FieldValue>): (r: map<string, FieldValue>)
    requires "monthly_salary" in fields && fields["monthly_salary"].Real?
    ensures r.Keys == fields.Keys + {"approved_limit"}
    ensures r["approved_limit"] == Int(CalculateApprovedLimit(fields["monthly_salary"].x))
    ensures r["approved_limit"].Int? && r["approved_limit"].i % 100000 == 0
    ensures forall k :: k in fields && k != "approved_limit" ==> r[k] == fields[k]
  {
    fields["approved_limit" := Int(CalculateApprovedLimit(fields["monthly_salary"].x))]
  }

  /** `create(validated_data)` up to the hand-off to the model's own `create`. */
  method Create(validatedData: ValidatedData)
    requires "monthly_salary" in validatedData.fields && validatedData.fields["monthly_salary"].Real?
    modifies validatedData
    ensures validatedData.fields == WithApprovedLimit(old(validatedData.fields))
    ensures validatedData.fields["approved_limit"].Int?
    ensures validatedData.fields["approved_limit"].i % 100000 == 0
    ensures forall k :: k in old(validatedData.fields) && k != "approved_limit" ==>
      k in validatedData.fields && validatedData.fields[k] == old(validatedData.fields)[k]
  {
    var salary := validatedData.fields["monthly_salary"].x;
    validatedData.fields := validatedData.fields["approved_limit" := Int(CalculateApprovedLimit(salary))];
  }

  /**
   * Whatever a client sends for `customer_id` or `approved_limit`, the data
   * saved is the same: the limit always comes from the salary, and every
   * other saved field is the client's own.
   */
  lemma {:induction false} ReadOnlyFieldsIgnored(input: map<string, FieldValue>, id: FieldValue, limit: FieldValue)
    requires "monthly_salary" in input && input["monthly_salary"].Real?
    ensures var forged := input["customer_id" := id]["approved_limit" := limit];
      && WithApprovedLimit(WritableInput(forged)) == WithApprovedLimit(WritableInput(input))
      && WithApprovedLimit(WritableInput(input))["approved_limit"]
         == Int(CalculateApprovedLimit(input["monthly_salary"].x))
  {
    var forged := input["customer_id" := id]["approved_limit" := limit];
    assert WritableInput(forged) == WritableInput(input) by {
      assert forall k :: k in WritableFields ==> k != "customer_id" && k != "approved_limit";
    }
  }
}
