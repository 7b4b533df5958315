/** Failure-carrying results used where the modelled code aborts or would read out of bounds. */
module Wrappers {

  datatype Option<+T> = None | Some(value: T) {
    function GetOr(default: T): T {
      match this
      case Some(v) => v
      case None => default
    }
  }

  /** Why an operation of the model gives up: the source calls `amrex::Abort`
      or reads past the end of a buffer at the same point. */
  datatype Error =
    | Abort(message: string)
    | Truncated
    | NegativeSize

  datatype Result<+R> = Success(value: R) | Failure(error: Error) {
    predicate IsFailure() {
      Failure?
    }

    function PropagateFailure<U>(): Result<U>
      requires Failure?
    {
      Failure(error)
    }

    function Extract(): R
      requires Success?
    {
      value
    }
  }
}
