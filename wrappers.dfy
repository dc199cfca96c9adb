/** Optional values, the error kinds the API surfaces, and results that carry either. */
module Wrappers {

  datatype Option<+T> = None | Some(value: T) {
    function GetOr(default: T): T {
      match this
      case Some(v) => v
      case None => default
    }
  }

  /** HTTP 400, 403 and 404, and a violated uniqueness constraint of the store. */
  datatype Error = BadRequest | Forbidden | NotFound | Conflict

  datatype Result<+T> = Ok(value: T) | Err(error: Error)

  /** JavaScript truthiness of an optional string: absent and "" are both false. */
  predicate NonEmpty(s: Option<string>) {
    s.Some? && s.value != ""
  }
}
