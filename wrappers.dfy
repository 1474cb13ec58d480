/** Option and Result, used for JavaScript's nullable values and for rejected promises. */
module Wrappers {

  datatype Option<+T> = None | Some(value: T)

  /** The outcome of a promise: resolved with a value, or rejected with an error message. */
  datatype Result<+T> = Success(value: T) | Failure(error: string)
}
