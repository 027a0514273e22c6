/** Failure-carrying values shared by the other modules. */
module Wrappers {

  /** A value that may be absent (a regex search with no match, a line that is skipped). */
  datatype Option<T> = None | Some(value: T)

  /** A value or the error that aborted the computation. */
  datatype Result<T, E> = Success(value: T) | Failure(error: E)
}
