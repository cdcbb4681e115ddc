/** Optional values and error-carrying results, used wherever the Python code
    reads a possibly missing key (`dict.get`) or raises an exception. */
module Results {

  /** A value that may be absent, like a dictionary entry read with `get`. */
  datatype Option<+T> = None | Some(value: T) {

    /** The value, or `default` when absent: Python's `d.get(key, default)`. */
    function GetOr(default: T): T {
      match this
      case Some(v) => v
      case None => default
    }
  }

  /** Either a value or the exception that replaced it. */
  datatype Result<+T, +E> = Ok(value: T) | Err(error: E)
}
