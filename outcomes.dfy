/** Outcomes of the checker's operations: a value, or the error the Python
    code raises instead of returning. */
module Outcomes {

  datatype Option<+T> = None | Some(value: T)

  /** One constructor per kind of exception that escapes the checker. */
  datatype Error =
    | InvalidInputType                 // AttributeError: the credential is neither str nor int
    | RangeFetchError(statusCode: int) // RuntimeError: the range service answered with a non-OK status
    | ConnectionFailure                // the range service could not be reached
    | FileNotFound                     // FileNotFoundError: the batch file does not exist
    | RetriesExhausted                 // the regenerate loop used up its bound (model only)

  /** Either a value or the error that interrupted the computation. */
  datatype Result<+T> = Ok(value: T) | Fail(error: Error)
}
