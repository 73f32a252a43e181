/** Option, Result and Either, the failure-carrying types the Rust and Python code returns. */
module Wrappers {

  datatype Option<+T> = None | Some(value: T)

  datatype Result<+T, +E> = Ok(value: T) | Err(error: E)

  /** `either::Either`: a value of one of two types. */
  datatype Either<+L, +R> = Left(left: L) | Right(right: R)
}
