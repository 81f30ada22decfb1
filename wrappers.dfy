/** Option and the error-carrying Result used throughout the model. */
module Wrappers {

  datatype Option<T> = None | Some(value: T)

  /** Either a value or the message of the error raised instead of it. */
  datatype Result<T> = Success(value: T) | Failure(error: string) {

    predicate IsFailure() {
      Failure?
    }

    function PropagateFailure<U>(): Result<U>
      requires Failure?
    {
      Failure(error)
    }

    function Extract(): T
      requires Success?
    {
      value
    }
  }
}
