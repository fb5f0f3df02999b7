/** Shared value types of the service: optional values, results with an error
    side, raw bytes and the HTTP error a handler raises. */
module Wrappers {

  datatype Option<+T> = None | Some(value: T)

  datatype Result<+R, +E> = Success(value: R) | Failure(error: E)

  type Bytes = seq<bv8>

  /** An `HTTPException(status_code, detail)` raised by a handler. */
  datatype HttpError = HttpError(status: int, detail: string)

  /** What the web framework answers when an exception escapes a handler. */
  const UNHANDLED_ERROR := HttpError(500, "Internal Server Error")
}
