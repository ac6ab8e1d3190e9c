/** The one failure-carrying datatype the model needs. */
module Wrappers {

  /** Either a value or the error that was raised instead. */
  datatype Result<+R, +E> = Success(value: R) | Failure(error: E)
}
