/** Failure-compatible helper datatypes used throughout the model. */
module Wrappers {

  /** Rust's `Option`. */
  datatype Option<+T> = None | Some(value: T) {

    /** Returns the value in `Some`, or `default` for `None` (Rust's `unwrap_or`). */
    function GetOr(default: T): T
    {
      match this
      case Some(v) => v
      case None => default
    }
  }

  /** A value or an error: stands for a Rust `expect` that would abort the program. */
  datatype Result<+T, +E> = Success(value: T) | Failure(error: E)
}
