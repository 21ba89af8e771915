/** Failure-carrying values: `Option` for a parse that may produce nothing, `Result` for an
    operation that either returns a value or raises one of the Java code's checked exceptions. */
module Wrappers {

  datatype Option<+T> = None | Some(value: T)

  datatype Result<+R, +E> = Success(value: R) | Failure(error: E)
}
