/** Option and Result, the shapes the codec uses for absent values and for errors. */
module Wrappers {

  /** A value that may be absent; JavaScript's `undefined` is `None`. */
  datatype Option<+T> = None | Some(value: T)

  /** The outcome of an operation that can throw: `Failure` carries what was thrown. */
  datatype Result<+R, +E> = Success(value: R) | Failure(error: E)
}
