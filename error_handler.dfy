/** The Express error handler: maps a thrown value to a status code and an
    error envelope, testing in a fixed order. */
module ErrorHandler {
  import opened Values
  import opened AppErrors
  import opened ErrorHelper
  import opened Http

  /** The first test: a Passport-style authentication failure. */
  predicate IsUnauthorized(err: Thrown) {
    err.NameValue() == VStr("UnauthorizedError") || err.MessageValue() == VStr("Unauthorized")
  }

  predicate IsFileFormatError(err: Thrown) {
    err.NameValue() == VStr("FileFormatError")
  }

  /** `errorHandler(err, req, res, next)`. `validationErrors` stands for the
      formatted result of `validationResult(req)`, which is consulted only
      when the thrown value is not an `Error`. */
  function HandleError(err: Thrown, validationErrors: seq<Value>): (o: Reply)
    ensures IsUnauthorized(err) ==>
      o == Respond(401, map["status" := VStr("fail"), "error" := err.MessageValue(),
                            "message" := VStr("Unauthorized access")])
    ensures !IsUnauthorized(err) && IsFileFormatError(err) ==>
      o == Respond(400, map["status" := VStr("fail"), "message" := err.MessageValue()])
    ensures !IsUnauthorized(err) && err.AppErr? ==>
      o == Respond(err.app.statusCode, map["status" := VStr("fail"),
                                           "error" := VStr(TypeName(err.app.errorType)),
                                           "message" := VStr(err.app.message)])
    ensures !IsUnauthorized(err) && err.OtherError? && !IsFileFormatError(err) ==>
      o == Respond(500, map["status" := VStr("error"), "error" := VStr(err.message),
                            "message" := VStr("common.SOMETHING_WENT_WRONG")])
    ensures err.NotAnError? && !IsUnauthorized(err) && !IsFileFormatError(err) && validationErrors != [] ==>
      o == Respond(400, map["status" := VStr("fail"), "errors" := VArray(validationErrors)])
    ensures o.Next? <==>
      err.NotAnError? && !IsUnauthorized(err) && !IsFileFormatError(err) && validationErrors == []
    ensures o.Respond? || o.Next?
  {
    if IsUnauthorized(err) then
      Respond(401, map["status" := VStr("fail"), "error" := err.MessageValue(),
                       "message" := VStr("Unauthorized access")])
    else if IsFileFormatError(err) then
      Respond(400, map["status" := VStr("fail"), "message" := err.MessageValue()])
    else if err.AppErr? then
      Respond(err.app.statusCode, map["status" := VStr("fail"),
                                      "error" := VStr(TypeName(err.app.errorType)),
                                      "message" := VStr(err.app.message)])
    else if err.IsError() then
      Respond(500, map["status" := VStr("error"), "error" := err.MessageValue(),
                       "message" := VStr("common.SOMETHING_WENT_WRONG")])
    else if validationErrors != [] then
      Respond(400, map["status" := VStr("fail"), "errors" := VArray(validationErrors)])
    else
      Next
  }

  /** The authentication test runs first, so an `AppError` of any kind whose
      message is "Unauthorized" is answered with 401, not with its own
      status. */
  lemma UnauthorizedMessageWins(t: ErrorType, status: int, v: seq<Value>)
    ensures HandleError(AppErr(NewAppError(t, "Unauthorized", status)), v).status == 401
  {
  }

  /** An error made by one of the four factories reaches the client with the
      factory's status and its kind as `error`, unless its message is
      "Unauthorized". */
  lemma FactoryErrorsKeepStatus(e: AppError, v: seq<Value>)
    requires Consistent(e) && e.message != "Unauthorized"
    ensures HandleError(AppErr(e), v).status == CanonicalStatus(e.errorType)
    ensures Get(HandleError(AppErr(e), v).body, "error") == VStr(TypeName(e.errorType))
  {
  }
}
