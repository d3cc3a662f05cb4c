/** Option and Result datatypes used for missing values and for the errors
    the tracker raises (pandas' KeyError, list.index's ValueError). */
module Wrappers {

  /** A value that may be absent: a missing file, or an empty (NaN) date cell. */
  datatype Option<+T> = None | Some(value: T)

  /** The outcome of an operation that either produces a value or raises an error. */
  datatype Result<+R, +E> = Success(value: R) | Failure(error: E)
}
