/** Failure-carrying datatypes shared by every module: a nullable reference becomes an
    Option, an operation that may be refused returns an Outcome, and one that builds
    something on success returns a Result. */
module Wrappers {

  datatype Option<+T> = None | Some(value: T)

  datatype Outcome<+E> = Pass | Fail(error: E)

  datatype Result<+T, +E> = Success(value: T) | Failure(error: E)
}
