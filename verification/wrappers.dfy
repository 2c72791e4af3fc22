/** Failure-carrying result types shared by the parsers and the statistics. */
module Wrappers {

  /** A value that may be absent: the statistics' "no data" answer. */
  datatype Option<+T> = None | Some(value: T)

  /** Either a value or the error that the Python code would raise instead. */
  datatype Result<+R, +E> = Success(value: R) | Failure(error: E)
}
