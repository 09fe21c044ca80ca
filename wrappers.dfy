/** Option and Outcome datatypes shared by the call-log model. */
module Wrappers {

  /** A value that may be absent. */
  datatype Option<+T> = None | Some(value: T)

  /** The result of an operation that returns nothing but may throw an error. */
  datatype Outcome<+E> = Pass | Fail(error: E)
}
