/**
 * The error taxonomy and the boundary handler that turns any error that reaches
 * it into an HTTP status and an error body.
 */
module Errors {
  import opened Wrappers

  /**
   * An error raised while serving a request: a domain `ApiError` carrying its own
   * status code, code and message; a request-validation error with its issues; or
   * any other exception (a database constraint, an invalid Date, bad JSON).
   */
  datatype AppError =
    | ApiError(statusCode: int, code: string, message: string)
    | ValidationError(issues: seq<string>)
    | InternalFailure(message: string)

  /** The JSON error object `{ code, message, details? }`. */
  datatype ErrorBody = ErrorBody(code: string, message: string, details: Option<seq<string>>)

  /** The status code and body the handler answers with. */
  datatype ErrorReply = ErrorReply(status: int, body: ErrorBody)

  const InternalErrorCode := "INTERNAL_ERROR"
  const InternalErrorMessage := "An unexpected error occurred"

  /**
   * The error-handling middleware: an ApiError is answered with its own status
   * and code, a validation error with 400, anything else with a fixed 500 that
   * never repeats the original message.
   */
  function HandleError(e: AppError): (r: ErrorReply)
    ensures e.ApiError? ==> r.status == e.statusCode && r.body == ErrorBody(e.code, e.message, None)
    ensures e.ValidationError? ==>
      r.status == 400 && r.body == ErrorBody("VALIDATION_ERROR", "Request validation failed", Some(e.issues))
    ensures e.InternalFailure? ==>
      r.status == 500 && r.body == ErrorBody(InternalErrorCode, InternalErrorMessage, None)
    ensures r.body.details.Some? <==> e.ValidationError?
  {
    match e
    case ApiError(status, code, message) => ErrorReply(status, ErrorBody(code, message, None))
    case ValidationError(issues) =>
      ErrorReply(400, ErrorBody("VALIDATION_ERROR", "Request validation failed", Some(issues)))
    case InternalFailure(_) => ErrorReply(500, ErrorBody(InternalErrorCode, InternalErrorMessage, None))
  }

  /** Two unexpected errors are indistinguishable to the client, whatever their messages. */
  lemma InternalFailuresLookAlike(e1: AppError, e2: AppError)
    requires e1.InternalFailure? && e2.InternalFailure?
    ensures HandleError(e1) == HandleError(e2)
  {
  }
}
