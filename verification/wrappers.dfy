/** Failure-carrying values used across the model: `Option` for the source's
    `null`/`undefined`/non-finite results and `Result` for its thrown errors. */
module Wrappers {

  datatype Option<+T> = None | Some(value: T)

  datatype Result<+T, +E> = Success(value: T) | Failure(error: E)
}
