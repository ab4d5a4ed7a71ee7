/** Failure-carrying datatypes shared by every module of the model.
    `Option` stands for a floating-point value that may be NaN (or a Python `None`);
    `Result` stands for a Python call that either returns or raises. */
module Wrappers {

  datatype Option<+T> = None | Some(value: T) {
    function GetOr(default: T): T {
      match this
      case Some(v) => v
      case None => default
    }
  }

  datatype Result<+T, +E> = Ok(value: T) | Err(error: E) {
    predicate IsFailure() {
      Err?
    }

    function PropagateFailure<U>(): Result<U, E>
      requires Err?
    {
      Err(error)
    }

    function Extract(): T
      requires Ok?
    {
      value
    }
  }

  /** The Python exception classes the modelled code can raise. */
  datatype ExcClass =
    | ValueError
    | IndexError
    | KeyError
    | TypeError
    | AttributeError
    | ZeroDivisionError
    | BareException
}
