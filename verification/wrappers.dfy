/** Optional values and success/failure results shared by the trade and the
    wire-message models. A Java `null` becomes `None`; an exception thrown
    while decoding becomes `Failure`. */
module Wrappers {

  datatype Option<+T> = None | Some(value: T) {

    /** The wrapped value, or `default` when there is none. */
    function GetOr(default: T): T {
      match this
      case Some(v) => v
      case None => default
    }
  }

  datatype Result<+R, +E> = Success(value: R) | Failure(error: E)
}
