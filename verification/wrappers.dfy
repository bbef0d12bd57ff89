/** Optional values and results with an error, shared by the ingestion modules. */
module Wrappers {

  /** A value that may be absent, like Python's `None` from `dict.get`. */
  datatype Option<+T> = None | Some(value: T)

  /** The outcome of an operation that may raise. */
  datatype Result<+T, +E> = Success(value: T) | Failure(error: E)
}
