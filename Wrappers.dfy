/** Failure-compatible result types shared by the codecs. */
module Wrappers {

  datatype Option<+T> = None | Some(value: T)

  /** The outcome of a fallible codec step: a value, or the first error met. */
  datatype Result<+T, +E> = Ok(value: T) | Err(error: E) {

    predicate IsFailure() {
      Err?
    }

    function PropagateFailure<U>(): Result<U, E>
      requires Err?
    {
      Err(error)
    }

    function Extract(): T
      requires Ok?
    {
      value
    }
  }
}
