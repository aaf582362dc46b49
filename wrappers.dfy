/** Failure-compatible result types shared by every module of the model.
    They stand for Rust's `Option` and `Result`, and for `Result<(), E>`. */
module Wrappers {

  datatype Option<+T> = None | Some(value: T)

  datatype Result<+T, +E> = Success(value: T) | Failure(error: E) {
    predicate IsFailure() { Failure? }

    function PropagateFailure<U>(): Result<U, E>
      requires Failure?
    {
      Failure(error)
    }

    function Extract(): T
      requires Success?
    {
      value
    }
  }

  /** `Result<(), E>` */
  datatype Outcome<+E> = Pass | Fail(error: E)
}
