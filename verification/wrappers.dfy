/** Option and Result, used for JavaScript's `undefined` and for the handlers' failure paths. */
module Wrappers {

  datatype Option<+T> = None | Some(value: T)

  datatype Result<+R, +E> = Success(value: R) | Failure(error: E)
}
