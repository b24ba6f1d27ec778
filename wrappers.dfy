/** Optional values and results-or-errors, used across the model. */
module Wrappers {

  /** A value that may be missing: Python's `None` versus a present value. */
  datatype Option<+T> = None | Some(value: T)

  /** The value computed by a step, or the exception it raised. */
  datatype Result<+R, +E> = Success(value: R) | Failure(error: E)
}
