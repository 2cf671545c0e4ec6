/** Option and Result, the two failure-carrying datatypes the model uses for
    missing values and for the errors a store operation can raise. */
module Wrappers {

  datatype Option<+T> = None | Some(value: T)

  datatype Result<+R, +E> = Success(value: R) | Failure(error: E)
}
