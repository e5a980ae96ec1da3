/** Failure-carrying result types standing in for the Python exceptions the
    modelled code raises. */
module Wrappers {

  datatype Option<+T> = None | Some(value: T)

  /** The exception classes the modelled code raises or lets escape. */
  datatype Error =
    | ValueError(msg: string)
    | KeyError(key: string)
    | TypeError(msg: string)
    | OverflowError(msg: string)
    | SystemExit(msg: string)

  datatype Result<+T> = Ok(value: T) | Err(error: Error) {
    predicate IsFailure() {
      Err?
    }

    function PropagateFailure<U>(): Result<U>
      requires Err?
    {
      Err(error)
    }

    function Extract(): T
      requires Ok?
    {
      value
    }
  }
}
