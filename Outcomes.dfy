/** Option stands for a Java reference that may be null, Result for a call
    that either returns a value or throws. */
module Outcomes {

  datatype Option<T> = None | Some(value: T)

  datatype Result<T, E> = Success(value: T) | Failure(error: E)
}
