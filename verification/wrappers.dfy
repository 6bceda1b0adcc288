/** Failure-compatible wrappers shared by every module of the model. */
module Wrappers {

  /** A value that may be absent (`undefined`/`null` in the service code). */
  datatype Option<+T> = None | Some(value: T) {

    /** The wrapped value, or `default` when absent (the `??` operator). */
    function GetOr(default: T): T {
      match this
      case Some(v) => v
      case None => default
    }
  }

  /** An optional string JavaScript treats as true: present and non-empty. */
  predicate Truthy(o: Option<string>) {
    o.Some? && o.value != ""
  }

  /** Either a value or a thrown error. */
  datatype Result<+T, +E> = Ok(value: T) | Err(error: E)

  /** The HTTP exceptions the services throw, by status class. */
  datatype HttpError =
    | BadRequest(message: string)      // 400
    | Unauthorized(message: string)    // 401
    | Forbidden(message: string)       // 403
    | NotFound(message: string)        // 404
    | ServerError(message: string)     // a plain `Error`: 500
}
