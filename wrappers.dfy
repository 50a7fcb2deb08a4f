/** Small failure-carrying datatypes shared by the model. */
module Wrappers {

  datatype Option<+T> = None | Some(value: T)

  datatype Result<+T, +E> = Ok(value: T) | Err(error: E)

  /**
   * Python's `if not v: v = 0` for a value a query may leave NULL: the result
   * is 0 exactly when the value is missing or falsy, and otherwise the value.
   */
  function OrZeroInt(o: Option<int>): (r: int)
    ensures r == 0 <==> o.None? || o.value == 0
    ensures r != 0 ==> o == Some(r)
  {
    match o
    case Some(v) => v
    case None => 0
  }

  function OrZeroReal(o: Option<real>): (r: real)
    ensures r == 0.0 <==> o.None? || o.value == 0.0
    ensures r != 0.0 ==> o == Some(r)
  {
    match o
    case Some(v) => v
    case None => 0.0
  }
}
