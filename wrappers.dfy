/** Option and Result, used for values that may be absent and for the
    argument errors that make the converters abort. */
module Wrappers {

  datatype Option<+T> = None | Some(value: T)

  datatype Result<+R, +E> = Success(value: R) | Failure(error: E)
}
