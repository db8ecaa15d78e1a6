/** Failure-carrying values shared by the model. */
module Wrappers {

  /** A value that may be absent, as `undefined` is in the source. */
  datatype Option<T> = None | Some(value: T)

  /** The outcome of a computation that may throw; `reason` names the exception. */
  datatype Result<T> = Ok(value: T) | Err(reason: string)
}
