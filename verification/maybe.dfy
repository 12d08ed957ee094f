/** Optional values and error-carrying results, the model's stand-ins for
    Python's `None` and for an exception raised out of a function. */
module Maybe {

  /** `None` is Python's `None` (or a lookup that found nothing). */
  datatype Option<+T> = None | Some(value: T) {

    /** The wrapped value, or `default` when there is none. */
    function GetOr(default: T): T {
      match this
      case Some(v) => v
      case None => default
    }
  }

  /** `Err` is an exception raised by the modelled code. */
  datatype Result<+T, +E> = Ok(value: T) | Err(error: E) {

    /** The result, or `default` when an exception was raised. */
    function GetOr(default: T): T {
      match this
      case Ok(v) => v
      case Err(_) => default
    }
  }
}
