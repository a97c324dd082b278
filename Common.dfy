/**
 * Option and Result, and the errors in which the command pipeline can end.
 * Every exception of the C# library becomes an `Error` value returned in a `Result`.
 */
module Common {

  /** A value or nothing; `None` stands for C#'s `null`. */
  datatype Option<T> = None | Some(value: T)

  /** The exception classes the library throws itself, each with a message it spells out. */
  datatype ExceptionType =
    | GeneralException         // `throw new Exception(...)` during registration
    | BuildCliParseException   // the library's own exception class
    | NotImplementedException  // raised when no help sink has been set

  /** Faults the .NET runtime raises on paths the library does not guard against. */
  datatype RuntimeFault =
    | ArgumentOutOfRange   // `Substring(0, 1)` on an empty token
    | NullReference        // single-command help text for a command that was not found
    | InvalidOperation     // `SingleOrDefault` when more than one command matches

  datatype Error =
    | Thrown(kind: ExceptionType, message: string)
    | Fault(fault: RuntimeFault)

  /** The outcome of an operation that returns a value or throws. */
  datatype Result<T> = Success(value: T) | Failure(error: Error)
}
