/** Failure-carrying result types shared by every module of the model.
    A Python exception, a `sys.exit` and C++ undefined behaviour are all
    rendered as an `Err` value naming what went wrong. */
module Wrappers {

  datatype Option<+T> = None | Some(value: T)

  datatype Result<+T, +E> = Ok(value: T) | Err(error: E) {

    predicate IsFailure() {
      Err?
    }

    function PropagateFailure<U>(): Result<U, E>
      requires Err?
    {
      Err(error)
    }

    function Extract(): T
      requires Ok?
    {
      value
    }
  }
}
