/** Option and Result types for values the source represents as `T | null`,
    `T | undefined` or a thrown error. */
module Wrappers {

  datatype Option<+T> = None | Some(value: T) {
    /** The `??` operator of TypeScript: the value if present, else `default`. */
    function GetOr(default: T): T {
      match this
      case Some(v) => v
      case None => default
    }
  }

  /** Either the value a handler responds with, or the error it throws. */
  datatype Result<+R, +E> = Ok(value: R) | Err(error: E)

  /** The outcome of a check that throws on failure and returns nothing otherwise. */
  datatype Outcome<+E> = Pass | Fail(error: E)
}
