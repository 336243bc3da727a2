/** Optional values and pass/fail outcomes used across the model. */
module Wrappers {

  /** Python's `None` or a present value. */
  datatype Option<+T> = None | Some(value: T)

  /** The result of an operation that either completes or raises. */
  datatype Outcome<+E> = Pass | Fail(error: E)
}
