/** Optional values and results of operations that may fail. */
module Wrappers {

  /** A value that may be missing (`null` / `undefined` in the application). */
  datatype Option<+T> = None | Some(value: T) {
    function GetOr(default: T): T {
      match this
      case Some(v) => v
      case None => default
    }
  }

  /** The result of an operation that may throw; `Err` carries the thrown message. */
  datatype Result<+T> = Ok(value: T) | Err(message: string)
}
