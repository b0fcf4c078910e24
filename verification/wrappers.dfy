/** Failure-carrying results: the model's stand-in for a C++ function that
    either returns a value or throws. */
module Wrappers {

  /** Either the value an operation returns or the error it throws. */
  datatype Result<+R, +E> = Ok(value: R) | Err(error: E)

  /** An optional value, used by the parser of rendered vectors. */
  datatype Option<+T> = None | Some(value: T)
}
