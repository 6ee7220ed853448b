/** Failure-carrying result types shared by the classifier model. */
module Wrappers {

  /** A value that may be absent: a parse that did not succeed, a missing member. */
  datatype Option<+T> = None | Some(value: T)

  /** The outcome of an operation that can fail with an error of type E,
      in the shape of Rust's `Result<T, E>`. */
  datatype Result<+T, +E> = Ok(value: T) | Err(error: E)
}
