/** Failure-compatible result types shared by the other modules. */
module Wrappers {

  /** A value that may be missing (C#'s `null` / `FirstOrDefault`). */
  datatype Option<+T> = None | Some(value: T) {
    function GetOr(default: T): T {
      match this
      case Some(v) => v
      case None => default
    }
  }

  /** A value or the error that prevented computing it (a thrown exception). */
  datatype Result<+T, +E> = Success(value: T) | Failure(error: E)

  /** The outcome of an action that returns nothing on success. */
  datatype Outcome<+E> = Pass | Fail(error: E)
}
