/** Optional values and results with an error, shared by the other modules. */
module Wrappers {

  /** A value that may be absent; pandas' NaN is modelled as None. */
  datatype Option<+T> = None | Some(value: T)

  /** The outcome of an operation that can fail. */
  datatype Result<+T, +E> = Success(value: T) | Failure(error: E)
}
