/** Failure-carrying values used in place of Go's `panic`: every step of the
    ingestion either yields a value or the first error met. `Result` supports
    Dafny's `:-` so that a failure short-circuits the remaining steps. */
module Wrappers {

  datatype Option<+T> = None | Some(value: T)

  datatype Result<+T, +E> = Ok(value: T) | Err(error: E) {

    predicate IsFailure() {
      Err?
    }

    function PropagateFailure<U>(): Result<U, E>
      requires Err?
    {
      Err(error)
    }

    function Extract(): T
      requires Ok?
    {
      value
    }
  }
}
