/** Option and Result: how the model spells "absent" and "threw". */
module Results {

  datatype Option<+T> = None | Some(value: T) {

    /** The value, or the given default when absent (JavaScript's `x ?? d` / a defaulted parameter). */
    function GetOr(default: T): T {
      match this
      case Some(v) => v
      case None => default
    }
  }

  /** The outcome of an operation that either returns a value or throws an error. */
  datatype Result<+T, +E> = Ok(value: T) | Err(error: E)
}
