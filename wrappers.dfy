/** Option and Result datatypes shared by every module of the model. */
module Wrappers {

  /** A value that may be absent (TypeScript's `T | null` / `T | undefined`). */
  datatype Option<+T> = None | Some(value: T) {
    function GetOr(default: T): T {
      match this
      case Some(v) => v
      case None => default
    }
  }

  /** The outcome of a remote call: the resolved value, or the rejection it was rejected with. */
  datatype Result<+R, +E> = Success(value: R) | Failure(error: E)
}
