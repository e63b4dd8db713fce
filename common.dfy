/**
 * Values shared by the employee directory, the compensation ledger and the
 * request handlers: nullable references, the failure shapes of the services,
 * and the exceptions the services throw.
 */
module Common {

  /** A C# reference that may be null: `None` is null. */
  datatype Option<+T> = None | Some(value: T)

  /** A value or the exception that was thrown instead of returning it. */
  datatype Result<+T, +E> = Success(value: T) | Failure(error: E)

  /** The completion of a `void` operation: it returned, or it threw. */
  datatype Outcome<+E> = Pass | Fail(error: E)

  /**
   * The exceptions that can reach the request handlers. Only the class and
   * the message matter to the handlers: `ArgumentException` is caught
   * separately from every other exception when a compensation is read.
   */
  datatype Exception =
    | ArgumentException(message: string)
    | ApplicationException(message: string)
    | InvalidOperationException(message: string)
    | NullReferenceException(message: string)

  /** The message of a dereference of a null reference. */
  const NullReferenceMessage: string := "Object reference not set to an instance of an object."
}
