/** Failure-carrying values used across the model: an absent JavaScript value
    (`undefined`) is `None`, and an operation that rejects returns `Failure`. */
module Wrappers {

  datatype Option<+T> = None | Some(value: T) {

    /** The value, or `default` when absent. */
    function GetOr(default: T): T {
      match this
      case Some(v) => v
      case None => default
    }
  }

  datatype Result<+R, +E> = Success(value: R) | Failure(error: E)
}
