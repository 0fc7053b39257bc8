/** Option and Result types shared by the modules. */
module Wrappers {

  /** A value that may be absent: JavaScript's `null`/`undefined` for optional data. */
  datatype Option<+T> = None | Some(value: T)

  /** The outcome of an operation that can fail with an error value. */
  datatype Result<+R, +E> = Success(value: R) | Failure(error: E)
}
