/** Failure-compatible wrappers shared by the whole model. */
module Wrappers {

  /** A cell that may be absent: pandas' NaN / NaT is `None`. */
  datatype Option<+T> = None | Some(value: T)

  /** The outcome of an operation that the source lets raise. */
  datatype Result<+R, +E> = Success(value: R) | Failure(error: E)
}
