/** Option and Result values shared by every module of the model. */
module Wrappers {

  /** A value that may be absent: a nil Go reference, SQL's NULL. */
  datatype Option<+T> = None | Some(value: T) {

    /** The carried value, or `default` when absent. */
    function GetOr(default: T): T
    {
      match this
      case Some(v) => v
      case None => default
    }
  }

  /** The outcome of an operation that returns `(value, error)` in Go. */
  datatype Result<+T> = Success(value: T) | Failure(error: string) {

    predicate IsFailure()
    {
      Failure?
    }

    function PropagateFailure<U>(): Result<U>
      requires Failure?
    {
      Failure(error)
    }

    function Extract(): T
      requires Success?
    {
      value
    }
  }

  /** The outcome of an operation that returns only `error` in Go. */
  datatype Outcome = Pass | Fail(error: string)
}
