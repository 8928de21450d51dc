/** The HTTP outcomes the route handlers produce, with their status codes. */
module Http {
  /** 400, 404, 409, and 500 for an exception caught by a handler's `catch`. */
  datatype Error = BadRequest | NotFound | Conflict | ServerError

  function StatusCode(e: Error): int {
    match e
    case BadRequest => 400
    case NotFound => 404
    case Conflict => 409
    case ServerError => 500
  }

  datatype Result<T> = Ok(value: T) | Fail(error: Error)
}
