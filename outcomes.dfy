/** Failure-carrying results shared by the guards and services. */
module Outcomes {

  datatype Option<+T> = None | Some(value: T)

  /** The HTTP exceptions the guards and services raise. */
  datatype HttpError =
    | BadRequest(message: string)
    | Unauthorized(message: string)
    | Forbidden(message: string)
    | Conflict(message: string)
    | TooManyRequests(retryAfter: int)
    | InternalError(message: string)

  /** A value, or the exception that was thrown instead of returning one. */
  datatype Result<+T> = Ok(value: T) | Err(error: HttpError)

  /** JavaScript truthiness of an optional string: absent and "" are falsy. */
  predicate Truthy(s: Option<string>)
  {
    s.Some? && s.value != ""
  }
}
