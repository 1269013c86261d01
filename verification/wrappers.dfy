/** Failure-carrying values shared by every module: `Option` for values that may be
    absent and `Result` for operations that succeed with a value or fail with an error,
    mirroring Rust's `Option` and `Result`. `Result` supports `:-`, which plays the role
    of Rust's `?`. */
module Wrappers {

  datatype Option<+T> = None | Some(value: T)

  datatype Result<+T, +E> = Ok(value: T) | Err(error: E) {

    predicate IsFailure() {
      Err?
    }

    function PropagateFailure<U>(): Result<U, E>
      requires Err?
    {
      Err(error)
    }

    function Extract(): T
      requires Ok?
    {
      value
    }
  }
}
