/** The two stored records the scoring engine reads (core/models.py). */
module Models {
  import opened Dates

  /** A registered customer.  `monthly_salary` is a float field, `approved_limit` an integer field. */
  datatype Customer = Customer(
    customerId: int,
    firstName: string,
    lastName: string,
    age: int,
    phoneNumber: string,
    monthlySalary: real,
    approvedLimit: int)

  /** One loan row; `customer` is the owning customer's id. */
  datatype Loan = Loan(
    loanId: int,
    customer: int,
    loanAmount: int,
    tenure: int,
    interestRate: real,
    monthlyPayment: real,
    emisPaidOnTime: int,
    dateOfApproval: Date,
    endDate: Date)

  /** `Loan.objects.filter(customer=customer)`: the rows owned by one customer, in table order. */
  function LoansOf(table: seq<Loan>, owner: int): (r: seq<Loan>)
    ensures forall l :: l in r ==> l in table && l.customer == owner
    ensures forall l :: l in table && l.customer == owner ==> l in r
    ensures |r| <= |table|
  {
    if |table| == 0 then []
    else if table[0].customer == owner then [table[0]] + LoansOf(table[1..], owner)
    else LoansOf(table[1..], owner)
  }

  /** The filter keeps every copy of a selected row: each of the owner's rows as often as in the table, no other row. */
  lemma {:induction false} LoansOfMultiplicity(table: seq<Loan>, owner: int)
    ensures forall l :: multiset(LoansOf(table, owner))[l] == (if l.customer == owner then multiset(table)[l] else 0)
  {
    if |table| > 0 {
      LoansOfMultiplicity(table[1..], owner);
      assert table == [table[0]] + table[1..];
    }
  }

  /** A table holding only one customer's loans is that customer's history, in order. */
  lemma {:induction false} LoansOfSingleOwner(table: seq<Loan>, owner: int)
    requires forall i :: 0 <= i < |table| ==> table[i].customer == owner
    ensures LoansOf(table, owner) == table
  {
    if |table| > 0 {
      LoansOfSingleOwner(table[1..], owner);
      assert [table[0]] + table[1..] == table;
    }
  }
}
