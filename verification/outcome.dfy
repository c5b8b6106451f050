/**
  Failure-compatible wrappers used throughout the model: `Option` for Rust's
  `Option<T>` and `Result` for Rust's `Result<T, E>`. Both work with `:-`,
  which plays the role of Rust's `?` operator.
 */
module Outcome {

  datatype Option<+T> = None | Some(value: T) {

    /** Rust's `unwrap_or`. */
    function GetOr(default: T): T {
      match this
      case Some(v) => v
      case None => default
    }
  }

  datatype Result<+T, +E> = Ok(value: T) | Err(error: E) {

    predicate IsFailure() {
      Err?
    }

    function PropagateFailure<U>(): Result<U, E>
      requires Err?
    {
      Err(error)
    }

    function Extract(): T
      requires Ok?
    {
      value
    }
  }
}
