/** Option, Result and Outcome for the error paths of the model, and the
    exceptions the C# code throws, as values. */
module Wrappers {

  datatype Option<+T> = None | Some(value: T)

  datatype Result<+R, +E> = Success(value: R) | Failure(error: E)

  /** A result that carries no value: the model of a `void` member that may throw. */
  datatype Outcome<+E> = Pass | Fail(error: E)

  /** The .NET exceptions raised by the modelled code. */
  datatype Error =
    | ArgumentNull(parameter: string)        // ArgumentNullException
    | InvalidArgument(message: string)       // ArgumentException
    | ArgumentOutOfRange(parameter: string)  // ArgumentOutOfRangeException
    | IndexOutOfRange                        // IndexOutOfRangeException
    | KeyNotFound                            // KeyNotFoundException
    | NullReference                          // NullReferenceException
    | BadFormat                              // FormatException
}
