/** Option and Result, standing for the source's optional values and for its
    (value, *errors.Error) return pairs. */
module Wrappers {

  datatype Option<+T> = None | Some(value: T)

  datatype Result<+R, +E> = Success(value: R) | Failure(error: E)
}
