/** Optional values and failure-carrying results shared by every operation
    of the transaction store. */
module Outcomes {

  /** A value that may be absent (Python's `Optional[...]`, `None`). */
  datatype Option<T> = None | Some(value: T) {

    /** The carried value, or `default` when absent (Python's `x or default`
        for values that are always truthy when present). */
    function GetOr(default: T): T {
      match this
      case Some(v) => v
      case None => default
    }
  }

  /** The failures an operation can report: a payload or query that breaks
      its declared constraints (HTTP 422), an id with no record (HTTP 404),
      and a NOT NULL column set to null, which the database refuses when the
      change is committed. */
  datatype Error = ValidationError | NotFound | IntegrityError

  datatype Result<T> = Ok(value: T) | Err(error: Error)
}
