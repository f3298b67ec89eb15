/**
 * How the services report results. A service either returns a value (often a
 * response envelope `{success, message, data, error}`) or throws an HTTP
 * exception that the framework turns into an error status.
 */
module Envelope {

  datatype Option<T> = None | Some(value: T)

  /** The exceptions the services throw, with their HTTP status. */
  datatype Fault =
    | Conflict(message: string)        // 409
    | BadRequest(message: string)      // 400
    | Unauthorized(message: string)    // 401
    | NotImplemented(message: string)  // a plain `Error`, surfacing as 500

  /** A service call either returns a value or throws. */
  datatype Result<T> = Ok(value: T) | Err(fault: Fault)

  /** The uniform response envelope; `error` carries a code such as `USER_NOT_FOUND`. */
  datatype Response<T> = Response(success: bool, message: string, data: Option<T>, error: Option<string>)

  function Success<T>(message: string, data: T): Response<T>
  {
    Response(true, message, Some(data), None)
  }

  function Failure<T>(message: string, code: string): Response<T>
  {
    Response(false, message, None, Some(code))
  }
}
