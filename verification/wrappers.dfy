/** Failure-carrying results shared by every module of the model.

    The modelled code signals failure by raising Python exceptions; the
    model returns `Err(kind)` instead, naming the exception class that the
    code raises at that point. */
module Wrappers {

  datatype Option<+T> = None | Some(value: T)

  /** The Python exception classes raised by the modelled code. */
  datatype PyError =
    | ValueError
    | TypeError
    | KeyError
    | IndexError
    | RuntimeError
    | AssertionError
    | NotImplementedError
    | ZeroDivisionError
    | NameError
    | AttributeError
    | GenericException

  datatype Result<+T> = Ok(value: T) | Err(error: PyError) {
    predicate IsFailure() {
      Err?
    }

    function PropagateFailure<U>(): Result<U>
      requires Err?
    {
      Err(error)
    }

    function Extract(): T
      requires Ok?
    {
      value
    }
  }
}
