/** Failure-carrying result types shared by the valuation modules. */
module Wrappers {

  /** A value that may be absent, the `None` of the source. */
  datatype Option<+T> = None | Some(value: T)

  /** Either a computed value or the reason it could not be computed. */
  datatype Result<+T, +E> = Success(value: T) | Failure(error: E)
}
