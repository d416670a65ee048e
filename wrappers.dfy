/** Option and Result, used for the values the pipeline may lack and for
    the failures of its external collaborators. */
module Wrappers {

  datatype Option<+T> = None | Some(value: T)

  datatype Result<+T, +E> = Success(value: T) | Failure(error: E)
}
