/** Optional values, results, and the .NET exceptions the generator lets escape. */
module Wrappers {

  datatype Option<+T> = None | Some(value: T)

  /** The exceptions thrown by the modelled code, as data. */
  datatype Exception =
    | FormatException(message: string)
    | ArgumentException(message: string)
    | ArgumentOutOfRangeException(paramName: string)

  /** A statement that either completes or throws. */
  datatype Outcome = Pass | Fail(error: Exception)

  /** A computation that either returns a value or throws. */
  datatype Result<+T> = Success(value: T) | Failure(error: Exception) {
    predicate IsFailure() { Failure? }

    function PropagateFailure<U>(): Result<U>
      requires Failure?
    {
      Failure(error)
    }

    function Extract(): T
      requires Success?
    {
      value
    }
  }
}
