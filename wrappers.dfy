/** Option and a pass/fail outcome, shared by the model. */
module Wrappers {

  /** A value that may be absent (Python's `None`). */
  datatype Option<+T> = None | Some(value: T)

  /** The outcome of an operation that can fail with an error of type E. */
  datatype Outcome<+E> = Pass | Fail(error: E)
}
