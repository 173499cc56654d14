/** The HTTP outcomes of the route handlers: the status code and the error or
    reason string; response bodies beyond that are not modelled. */
module Http {

  datatype Reply =
    | Done                                      // 200
    | BadRequest(error: string)                 // 400
    | Unauthorized(error: string)               // 401
    | Forbidden(error: string, reason: string)  // 403
    | NotFound(error: string)                   // 404
    | Conflict(error: string)                   // 409
    | Locked(error: string)                     // 423
    | ServerError(error: string)                // 500
  {
    function Code(): int {
      match this
      case Done => 200
      case BadRequest(_) => 400
      case Unauthorized(_) => 401
      case Forbidden(_, _) => 403
      case NotFound(_) => 404
      case Conflict(_) => 409
      case Locked(_) => 423
      case ServerError(_) => 500
    }
  }
}
