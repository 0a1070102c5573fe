/** Failure-carrying results shared by every model. */
module Wrappers {

  datatype Option<+T> = None | Some(value: T)

  datatype Result<+T, +E> = Success(value: T) | Failure(error: E)

  /** What the repositories answer when they do not answer with a value. */
  datatype StoreError = NotFound | Conflict | Unavailable
}
