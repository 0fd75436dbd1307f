/** Option and Result values, used wherever the Python code returns None or raises. */
module Wrappers {

  /** A value that may be absent (Python's None). */
  datatype Option<T> = None | Some(value: T) {

    /** The value, or `default` when absent (Python's `x or default` on optional values). */
    function GetOr(default: T): T {
      match this
      case Some(v) => v
      case None => default
    }
  }

  /** The outcome of an operation that may raise instead of returning. */
  datatype Result<T, E> = Ok(value: T) | Err(error: E)
}
