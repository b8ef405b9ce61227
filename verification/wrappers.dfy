/** Optional values and results with an error, used for nullable strings and for
    operations of the storage proxy that can throw. */
module Wrappers {

  /** A value that may be absent; stands in for a C# string that may be null. */
  datatype Option<+T> = None | Some(value: T)

  /** The outcome of an operation that either yields a value or raises an error. */
  datatype Result<+R, +E> = Success(value: R) | Failure(error: E)
}
