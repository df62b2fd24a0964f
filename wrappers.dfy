/** Failure-carrying datatypes shared by every module: Go's `(T, error)`
    returns become `Result<T, E>`, and values that may be nil become `Option<T>`. */
module Wrappers {

  datatype Option<+T> = None | Some(value: T)

  datatype Result<+T, +E> = Ok(value: T) | Err(error: E)
}
