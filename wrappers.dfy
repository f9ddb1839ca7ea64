/** Option and Result, the two failure-carrying wrappers the model uses for
    Rust's `Option` and `Result`. */
module Wrappers {

  datatype Option<+T> = None | Some(value: T)

  datatype Result<+T, +E> = Success(value: T) | Failure(error: E)

  /** The unit value carried by `Ok(())`. */
  datatype Unit = Unit
}
