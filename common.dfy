/** Values shared by every part of the store-rating backend model. */
module Common {

  datatype Option<T> = None | Some(value: T) {
    /** The value, or `d` when absent (the `x ?? d` / `x || d` idiom of the source). */
    function GetOr(d: T): T
    {
      if Some? then value else d
    }
  }

  /** The exceptions the backend raises, each with the message it carries. */
  datatype Error =
    | NotFound(message: string)      // NotFoundException, HTTP 404
    | BadRequest(message: string)    // BadRequestException or a failed DTO validation, HTTP 400
    | Forbidden(message: string)     // ForbiddenException, HTTP 403
    | Unauthorized(message: string)  // missing or invalid access token, HTTP 401
    | Internal(message: string)      // a plain `Error` thrown by a controller, HTTP 500
    | QueryFailed(message: string)   // the database rejected the write (column width, unique or foreign key)

  datatype Result<T> = Ok(value: T) | Err(error: Error)

  /** The `UserRole` enum, with its string values as constructor names. */
  datatype Role = ADMIN | STORE_OWNER | USER

  /** Row identities (uuid strings generated by the database). */
  type Id = string

  function Min(a: int, b: int): int
  {
    if a <= b then a else b
  }
}
