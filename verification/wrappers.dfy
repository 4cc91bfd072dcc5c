/** Failure-carrying datatypes shared by every module of the model.
    A Python exception raised by the scripts becomes a `Failure` carrying
    the exception's class and a short description. */
module Wrappers {

  datatype Option<+T> = None | Some(value: T) {

    function GetOr(default: T): T {
      match this
      case Some(v) => v
      case None => default
    }
  }

  /** The Python exception classes the modelled code can raise. */
  datatype ErrorKind =
    | KeyError
    | IndexError
    | ValueError
    | TypeError
    | OverflowError
    | NameError
    | AttributeError

  datatype Error = Error(kind: ErrorKind, detail: string)

  datatype Result<+R> = Success(value: R) | Failure(error: Error) {

    predicate IsFailure() {
      Failure?
    }

    function PropagateFailure<U>(): Result<U>
      requires Failure?
    {
      Failure(error)
    }

    function Extract(): R
      requires Success?
    {
      value
    }
  }
}
