/** Optional values and success-or-error values, the two shapes the Go code
    expresses with nil pointers and `(value, error)` pairs. */
module Results {

  datatype Option<+T> = None | Some(value: T) {
    function GetOr(default: T): T {
      match this
      case Some(v) => v
      case None => default
    }
  }

  datatype Result<+T, +E> = Ok(value: T) | Err(error: E)
}
