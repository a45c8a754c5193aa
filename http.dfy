/**
 * What a route handler sends: its own status and entity on success, or, after
 * `next(err)`, whatever the error-handling middleware answers.
 */
module Http {
  import opened Wrappers
  import opened Errors

  datatype Body<+T> = EntityBody(entity: T) | Failure(error: ErrorBody)

  datatype Reply<+T> = Reply(status: int, body: Body<T>)

  /** `res.status(okStatus).json(value)` on success; the error handler's answer otherwise. */
  function ReplyWith<T>(r: Result<T, AppError>, okStatus: int): (reply: Reply<T>)
    ensures reply.body.EntityBody? <==> r.Ok?
    ensures r.Ok? ==> reply == Reply(okStatus, EntityBody(r.value))
    ensures r.Err? ==> reply == Reply(HandleError(r.error).status, Failure(HandleError(r.error).body))
  {
    match r
    case Ok(v) => Reply(okStatus, EntityBody(v))
    case Err(e) => Reply(HandleError(e).status, Failure(HandleError(e).body))
  }
}
