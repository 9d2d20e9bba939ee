/** Option and Result, the failure-compatible datatypes the mapper model returns
    in place of C# `null` results and thrown exceptions. */
module Wrappers {

  /** `None` stands for a C# `null`. */
  datatype Option<+T> = None | Some(value: T)

  /** `Failure` stands for an exception thrown inside one of the mapper's `try` blocks. */
  datatype Result<+R, +E> = Success(value: R) | Failure(error: E) {

    predicate IsFailure() {
      Failure?
    }

    function PropagateFailure<U>(): Result<U, E>
      requires Failure?
    {
      Failure(error)
    }

    function Extract(): R
      requires Success?
    {
      value
    }
  }
}
