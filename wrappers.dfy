/** Failure-compatible result types shared by every module of the model. */
module Wrappers {

  /** An optional value: `None` stands for JavaScript's `null`/`undefined`. */
  datatype Option<+T> = None | Some(value: T)

  /** The outcome of a schema parse: the parsed value, or the list of issues found. */
  datatype Result<+T, +E> = Success(value: T) | Failure(error: E)
}
