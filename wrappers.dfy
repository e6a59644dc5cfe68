/** Option and Result: Kotlin's nullable values and thrown or returned failures. */
module Wrappers {

  /** A Kotlin `T?`: `None` stands for `null`. */
  datatype Option<+T> = None | Some(value: T)

  /** The outcome of an operation that can fail with an error description. */
  datatype Result<+T, +E> = Success(value: T) | Failure(error: E)
}
