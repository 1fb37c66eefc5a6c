/** The tool's error values and the failure-carrying wrappers the rest of the model returns.
    A thrown `GPushError` (src/errors.ts) becomes an `Err`/`Fail` value carrying its exit code;
    a plain `Error` thrown by a library or by the workflow is a `GPushError` with exit code 1,
    the code the process exits with when such an error reaches the top level. */
module Errors {

  /** An error raised by the tool: the message shown to the user and the process exit code. */
  datatype GPushError = GPushError(message: string, exitCode: nat)

  datatype Option<+T> = None | Some(value: T)

  /** A value, or the error that would have been thrown instead of returning it. */
  datatype Result<+T> = Ok(value: T) | Err(error: GPushError)

  /** The result of an operation that returns nothing on success (`void` in the source). */
  datatype Outcome = Pass | Fail(error: GPushError)
}
