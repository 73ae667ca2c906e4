/** Failure-carrying results shared by every module of the ledger core.
    The source raises JavaScript exceptions; the model returns them as values. */
module Wrappers {

  /** The exception classes the core raises. */
  datatype Error =
    | RangeError(message: string)
    | SyntaxError(message: string)
    | PlainError(message: string)
    | TypeError(message: string)
    | URIError(message: string)

  datatype Option<+T> = None | Some(value: T)

  datatype Result<+T> = Ok(value: T) | Err(error: Error) {
    predicate IsFailure() { Err? }
    function PropagateFailure<U>(): Result<U>
      requires Err?
    {
      Err(error)
    }
    function Extract(): T
      requires Ok?
    {
      value
    }
  }

  /** Success or failure of an operation that returns nothing (a method returning void). */
  datatype Outcome = Pass | Fail(error: Error)
}
