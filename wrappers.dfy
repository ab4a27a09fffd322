/** Option and Result, the return shapes used for JavaScript's `undefined`/`null`
    results and for thrown errors throughout the model. */
module Wrappers {

  datatype Option<+T> = None | Some(value: T)

  datatype Result<+R, +E> = Success(value: R) | Failure(error: E)
}
