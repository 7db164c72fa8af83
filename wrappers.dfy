/** Small failure-carrying datatypes shared by the other modules. */
module Wrappers {

  datatype Option<+T> = None | Some(value: T)

  /** The outcome of an operation that either completes or fails with an error value. */
  datatype Outcome<+E> = Pass | Fail(error: E)
}
