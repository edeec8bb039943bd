/** Failure-compatible helper types shared by every module of the model. */
module Wrappers {

  datatype Option<+T> = None | Some(value: T)

  /** The value of a Python expression that may raise: `Ok(v)` or `Err(e)` with the exception. */
  datatype Result<+T, +E> = Ok(value: T) | Err(error: E) {
    predicate IsFailure() { Err? }

    function PropagateFailure<U>(): Result<U, E>
      requires Err?
    {
      Err(error)
    }

    function Extract(): T
      requires Ok?
    {
      value
    }
  }

  /** A statement that may raise: `Pass` or `Fail(e)`. */
  datatype Outcome<+E> = Pass | Fail(error: E)
}
