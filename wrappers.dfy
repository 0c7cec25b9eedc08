/** Option and Result values used by the parser and the factory. */
module Wrappers {

  datatype Option<+T> = None | Some(value: T)

  /** Success carries a value, Failure the reason it could not be built. */
  datatype Result<+R, +E> = Success(value: R) | Failure(error: E) {

    predicate IsFailure() {
      Failure?
    }

    function PropagateFailure<U>(): Result<U, E>
      requires Failure?
    {
      Failure(error)
    }

    function Extract(): R
      requires Success?
    {
      value
    }
  }
}
