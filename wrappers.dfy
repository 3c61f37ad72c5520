/** Option, Result and Outcome, used by the storage and worker models. */
module Wrappers {

  /** A value that may be absent; `None` stands for the C# `null` a lookup returns. */
  datatype Option<+T> = None | Some(value: T)

  /** A value or the error that a call raised instead of returning it. */
  datatype Result<+R, +E> = Success(value: R) | Failure(error: E)

  /** The completion of a call that returns nothing (`Task`), or the error it raised. */
  datatype Outcome<+E> = Pass | Fail(error: E)
}
