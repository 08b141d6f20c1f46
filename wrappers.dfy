/** Failure-carrying result types shared by every module of the model. */
module Wrappers {

  /** Rust's `Option` and Python's "value or None". */
  datatype Option<+T> = None | Some(value: T) {
    /** Rust's `unwrap_or`. */
    function GetOr(default: T): T {
      match this
      case Some(v) => v
      case None => default
    }
  }

  /**
   * The three ways a Rust call can end: `Ok`, an `Err` handed back to the
   * caller, or a panic (an `unwrap`/`expect` on a failure) that unwinds the
   * task. Error payloads are not modelled.
   */
  datatype Outcome<+T> = Ok(value: T) | Err | Panic

  /** The Python exceptions the cloud functions can raise. */
  datatype PyException = KeyError | ValueError | IndexError | OverflowError

  /** A Python computation: a value, or an exception that propagates. */
  datatype PyResult<+T> = Value(value: T) | Raised(exception: PyException)
}
