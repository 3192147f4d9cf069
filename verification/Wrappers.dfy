/** Failure and absence values shared by every module of the model. */
module Wrappers {

  datatype Option<+T> = None | Some(value: T)

  /** `Refused` stands for the exceptions the source raises. */
  datatype Result<+T, +E> = Ok(value: T) | Refused(error: E)
}
