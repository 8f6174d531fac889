/** The two outcome datatypes shared by the modules of this project. */
module Wrappers {

  /** Stands for a reference that may be null. */
  datatype Option<+T> = None | Some(value: T)

  /** The outcome of an operation that may throw. */
  datatype Result<+T, +E> = Success(value: T) | Failure(error: E)
}
