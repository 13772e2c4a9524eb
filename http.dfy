/** The HTTP outcomes the route handlers produce: a value, or a raised `HTTPException`. */
module Http {
  /** The status codes the handlers raise; `InternalError` stands for an exception FastAPI does not
      map itself (an AttributeError, a TypeError, a failed flush), which reaches the client as 500. */
  datatype Status = BadRequest | Unauthorized | Forbidden | NotFound | InternalError

  function Code(s: Status): (r: int)
    ensures 400 <= r < 600
    ensures s == InternalError <==> r == 500
  {
    match s
    case BadRequest => 400
    case Unauthorized => 401
    case Forbidden => 403
    case NotFound => 404
    case InternalError => 500
  }

  /** The result of a handler: what it returns, or the status of what it raises. */
  datatype Result<T> = Ok(value: T) | Err(status: Status)

  /** The result of a guard that returns nothing when it does not raise. */
  datatype Outcome = Pass | Raise(status: Status)
}
