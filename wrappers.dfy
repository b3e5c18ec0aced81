/** Option and Result, the shapes the services use for "no value" and for
    "an error message instead of a value". */
module Wrappers {

  datatype Option<+T> = None | Some(value: T)

  datatype Result<+T> = Success(value: T) | Failure(error: string)
}
