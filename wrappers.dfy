/** Failure-compatible helper datatypes shared by the other modules. */
module Wrappers {

  datatype Option<+T> = None | Some(value: T)

  /** The outcome of a call that either produces a value or fails with an
      integer status code (an errno value, as the C library returns). */
  datatype Result<+T> = Success(value: T) | Failure(code: int)
}
