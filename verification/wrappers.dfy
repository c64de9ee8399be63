/** Failure-compatible result types shared by every script model. */
module Wrappers {

  /** A value that may be absent: Python's `None` or a missing key. */
  datatype Option<+T> = None | Some(value: T)

  /** The outcome of a script step: a value, or the error that ends the script. */
  datatype Result<+T, +E> = Ok(value: T) | Err(error: E) {

    predicate IsFailure() {
      Err?
    }

    function PropagateFailure<U>(): Result<U, E>
      requires Err?
    {
      Err(error)
    }

    function Extract(): T
      requires Ok?
    {
      value
    }
  }
}
