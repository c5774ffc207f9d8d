/** Option and Result values shared by every module of the model. */
module Wrappers {

  /** A value that may be absent: SQL NULL, a JavaScript `null`/`undefined`, a missing row. */
  datatype Option<+T> = None | Some(value: T)

  /** The outcome of an operation that may throw: `Failure` carries the exception. */
  datatype Result<+R, +E> = Success(value: R) | Failure(error: E)

  /** JavaScript's `x || 0` applied to a SQL aggregate: NULL becomes 0. */
  function OrZero(o: Option<int>): (r: int)
    ensures o.Some? ==> r == o.value
    ensures o.None? ==> r == 0
  {
    match o
    case Some(v) => v
    case None => 0
  }
}
