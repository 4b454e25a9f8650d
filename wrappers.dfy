/** Optional values and results with an error, used wherever the engine returns
    `std::optional`, a null pointer, or throws. */
module Wrappers {

  datatype Option<+T> = None | Some(value: T) {
    predicate IsFailure() { None? }

    function PropagateFailure<U>(): Option<U>
      requires None?
    {
      None
    }

    function Extract(): T
      requires Some?
    {
      value
    }
  }

  datatype Result<+R, +E> = Success(value: R) | Failure(error: E) {
    predicate IsFailure() { Failure? }

    function PropagateFailure<U>(): Result<U, E>
      requires Failure?
    {
      Failure(error)
    }

    function Extract(): R
      requires Success?
    {
      value
    }

    /** The same outcome with the success value transformed. */
    function MapSuccess<U>(f: R -> U): Result<U, E>
    {
      if Success? then Success(f(value)) else Failure(error)
    }
  }
}
