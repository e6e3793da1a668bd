/** Optional values and error-carrying results.

    `Option` stands for the many `T | null | undefined` fields of the front end
    (an absent date endpoint, a missing `customerName`, an unset location
    field); `Result` stands for an operation that either produces a value or
    throws an `Error`.
 */
module Wrappers {

  /** A value that may be absent. */
  datatype Option<+T> = None | Some(value: T) {

    /** The value, or `default` when absent (the `??` operator). */
    function GetOr(default: T): T {
      match this
      case Some(v) => v
      case None => default
    }
  }

  /** Either a value or the message of the `Error` the source would throw. */
  datatype Result<+R, +E> = Success(value: R) | Failure(error: E)
}
