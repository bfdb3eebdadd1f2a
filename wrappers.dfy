/** Small failure-compatible wrappers shared by the model. */
module Wrappers {

  /** A value that may be missing (a Java `null`). */
  datatype Option<+T> = None | Some(value: T)

  /** The outcome of an operation that can fail with an argument-validation error. */
  datatype Outcome<+E> = Pass | Fail(error: E)
}
