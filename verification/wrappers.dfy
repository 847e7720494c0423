/** Option and the HTTP-style result used by every route of the link store. */
module Wrappers {

  /** A nullable column or an optional request field. */
  datatype Option<+T> = None | Some(value: T) {
    function GetOr(default: T): T {
      match this
      case Some(v) => v
      case None => default
    }
  }

  /** The outcome of a route: a value, or the HTTP status of the exception it raised. */
  datatype Result<+T> = Ok(value: T) | Fail(status: nat)

  const BAD_REQUEST: nat := 400
  const NOT_FOUND: nat := 404
  const GONE: nat := 410
  const SERVER_ERROR: nat := 500
}
