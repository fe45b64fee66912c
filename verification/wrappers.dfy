/**
 * Option/Result/Outcome wrappers used throughout the model, and the failures
 * the commands raise (as thrown exceptions in the original program).
 */
module Wrappers {

  /** A value that may be missing (JavaScript's `undefined`). */
  datatype Option<+T> = None | Some(value: T) {
    function GetOr(default: T): T {
      match this
      case Some(v) => v
      case None => default
    }
  }

  /** The result of an operation that can throw. */
  datatype Result<+T, +E> = Ok(value: T) | Err(error: E)

  /** The outcome of an operation that returns nothing but can throw. */
  datatype Outcome<+E> = Pass | Fail(error: E)

  /**
   * What the commands throw. `TypeError` stands for the JavaScript runtime
   * error raised when a member of `undefined` is used; `what` names the
   * member that was missing.
   */
  datatype Error =
    | InvalidProject
    | InvalidPath(path: Option<string>)
    | InvalidPackage(name: string)
    | MissingIgnoreFile
    | TypeError(what: string)
}
