/** Optional values (C# nullable fields and parameters) and endpoint outcomes. */
module Wrappers {

  /** A nullable value: `None` stands for C# `null`. */
  datatype Option<+T> = None | Some(value: T) {

    /** The C# null-coalescing operator `this ?? default`. */
    function GetOr(default: T): T {
      match this
      case Some(v) => v
      case None => default
    }
  }

  /**
   * What an endpoint answers: `Ok` with its payload, or one of the error
   * results the controllers return, with the message they attach to it;
   * `ServerError` is an exception the controller does not catch (HTTP 500),
   * such as a foreign-key violation on `SaveChangesAsync`, whose request
   * saves nothing.
   */
  datatype Response<+T> =
    | Ok(value: T)
    | NotFound(message: string)
    | BadRequest(message: string)
    | Unauthorized(message: string)
    | ServerError

  /** The payload of an endpoint that answers only with a message. */
  datatype Unit = Unit
}
