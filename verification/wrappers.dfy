/** Failure-carrying datatypes shared by the modules of this model. */
module Wrappers {

  /** A value that may be missing: a JavaScript property that is `undefined`. */
  datatype Option<+T> = None | Some(value: T)

  /** A computation that either produces a value or fails with an error. */
  datatype Result<+R, +E> = Success(value: R) | Failure(error: E)

  /** The outcome of a chain of assertions: all passed, or the first one failed. */
  datatype Outcome<+E> = Pass | Fail(error: E)
}
