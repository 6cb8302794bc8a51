/** Failure-compatible wrapper types shared by every module of the model. */
module Wrappers {

  /** An optional value: Rust's `Option`. */
  datatype Option<+T> = None | Some(value: T) {
    function GetOr(default: T): T {
      match this
      case Some(v) => v
      case None => default
    }
  }

  /** A value or an error: Rust's `Result`, also used for the places where the
      source panics (the panic becomes an `Err`). */
  datatype Result<+T, +E> = Ok(value: T) | Err(error: E)
}
