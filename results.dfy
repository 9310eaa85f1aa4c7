/** Outcome types shared by the model: an optional value (Python's `None`,
    JavaScript's `null`) and a value-or-error result (a raised exception). */
module Results {

  datatype Option<T> = None | Some(value: T) {
    /** The value, or `default` when there is none. */
    function GetOr(default: T): T {
      match this
      case Some(v) => v
      case None => default
    }
  }

  datatype Result<T, E> = Ok(value: T) | Err(error: E)
}
