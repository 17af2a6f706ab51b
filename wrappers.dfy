/** Failure-carrying values shared by every module of the model. */
module Wrappers {

  /** A value that may be missing: a SQL NULL, an absent JSON key, an empty result set. */
  datatype Option<+T> = None | Some(value: T)

  /** The outcome of a step that can fail with an error of type E. */
  datatype Result<+T, +E> = Success(value: T) | Failure(error: E)
}
