/** The four `AppError` factories. */
module ErrorHelper {
  import opened AppErrors

  /** The HTTP status that belongs to each kind of error, as the factories
      and `checkPermissions`/`authMiddleware` use them. */
  function CanonicalStatus(t: ErrorType): int {
    match t
    case BadRequest => 400
    case Unauthorized => 401
    case Forbidden => 403
    case NotFound => 404
    case Conflict => 409
    case Internal => 500
  }

  /** An error made by one of the factories: its status is the canonical
      status of its kind. */
  predicate Consistent(e: AppError) {
    e.statusCode == CanonicalStatus(e.errorType)
  }

  function CreateBadRequestError(message: string): (e: AppError)
    ensures e.errorType == BadRequest && e.statusCode == 400 && e.message == message
    ensures Consistent(e)
  {
    NewAppError(BadRequest, message, 400)
  }

  function CreateNotFoundError(message: string): (e: AppError)
    ensures e.errorType == NotFound && e.statusCode == 404 && e.message == message
    ensures Consistent(e)
  {
    NewAppError(NotFound, message, 404)
  }

  function CreateConflictError(message: string): (e: AppError)
    ensures e.errorType == Conflict && e.statusCode == 409 && e.message == message
    ensures Consistent(e)
  {
    NewAppError(Conflict, message, 409)
  }

  function CreateInternalError(message: string): (e: AppError)
    ensures e.errorType == Internal && e.statusCode == 500 && e.message == message
    ensures Consistent(e)
  {
    NewAppError(Internal, message, 500)
  }
}
