/** Option and Result, the two failure-carrying datatypes the model uses for
    JavaScript's `null`/`undefined` results and for thrown exceptions. */
module Wrappers {

  datatype Option<+T> = None | Some(value: T)

  /** `Failure(message)` stands for a thrown JavaScript `Error` with that `message`. */
  datatype Result<+R, +E> = Success(value: R) | Failure(error: E)
}
