/**
 * Failure-carrying results. The Java code reports errors by throwing; the
 * model returns them instead, naming the exception class and its message.
 */
module Results {

  /** The exceptions the modelled code throws, with their messages ("" when none is given). */
  datatype Exception =
    | IllegalArgument(message: string)
    | Arithmetic(message: string)
    | NullPointer
    | UnsupportedOperation

  datatype Option<+T> = None | Some(value: T)

  datatype Result<+T> = Ok(value: T) | Err(error: Exception) {
    predicate IsFailure() { Err? }

    function PropagateFailure<U>(): Result<U>
      requires Err?
    {
      Err(error)
    }

    function Extract(): T
      requires Ok?
    {
      value
    }
  }

  /** The result of an operation that returns nothing (a Java `void` method). */
  datatype Outcome = Pass | Fail(error: Exception)
}
