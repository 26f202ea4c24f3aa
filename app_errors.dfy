/** The application's error record (`AppError`) and the kinds it can carry
    (`ErrorType`), plus what a `throw` can carry in general. */
module AppErrors {
  import opened Wrappers
  import opened Values

  /** Exactly six kinds. */
  datatype ErrorType = BadRequest | NotFound | Forbidden | Unauthorized | Conflict | Internal

  /** The string value of each enum member. */
  function TypeName(t: ErrorType): string {
    match t
    case BadRequest => "BadRequest"
    case NotFound => "NotFound"
    case Forbidden => "Forbidden"
    case Unauthorized => "Unauthorized"
    case Conflict => "Conflict"
    case Internal => "Internal"
  }

  /** Reads an enum member back from its string value. */
  function ParseTypeName(s: string): Option<ErrorType> {
    if s == "BadRequest" then Some(BadRequest)
    else if s == "NotFound" then Some(NotFound)
    else if s == "Forbidden" then Some(Forbidden)
    else if s == "Unauthorized" then Some(Unauthorized)
    else if s == "Conflict" then Some(Conflict)
    else if s == "Internal" then Some(Internal)
    else None
  }

  /** The six string values are distinct: each names one kind. */
  lemma TypeNameRoundTrip(t: ErrorType)
    ensures ParseTypeName(TypeName(t)) == Some(t)
  {
    match t
    case BadRequest =>
    case NotFound =>
    case Forbidden =>
    case Unauthorized =>
    case Conflict =>
    case Internal =>
  }

  /** An `AppError`: an `Error` whose `name` is always "AppError" and whose
      `type` and `statusCode` are read-only. */
  datatype AppError = AppError(errorType: ErrorType, message: string, statusCode: int) {
    function Name(): string {
      "AppError"
    }
  }

  /** `new AppError(type, message, statusCode)`. */
  function NewAppError(t: ErrorType, message: string, statusCode: int): (e: AppError)
    ensures e.errorType == t && e.statusCode == statusCode
    ensures e.message == message && e.Name() == "AppError"
  {
    AppError(t, message, statusCode)
  }

  /** What a `throw` carries: an `AppError`, another `Error` (its `name` and
      `message`: a `TypeError`, a Prisma error, a JWT error, a
      `FileFormatError`, ...), or a value that is not an `Error` at all,
      whose `name` and `message` properties may be anything. */
  datatype Thrown =
    | AppErr(app: AppError)
    | OtherError(name: string, message: string)
    | NotAnError(nameProp: Value, messageProp: Value)
  {
    predicate IsError() {
      !NotAnError?
    }

    /** `err.name` */
    function NameValue(): Value {
      match this
      case AppErr(_) => VStr("AppError")
      case OtherError(n, _) => VStr(n)
      case NotAnError(n, _) => n
    }

    /** `err.message` */
    function MessageValue(): Value {
      match this
      case AppErr(e) => VStr(e.message)
      case OtherError(_, m) => VStr(m)
      case NotAnError(_, m) => m
    }
  }

  /** The error a failed Prisma call throws; its message text is not modelled. */
  const StoreError: Thrown := OtherError("PrismaClientKnownRequestError", "")

  /** The `TypeError` thrown by a property access on `undefined` or `null`,
      or by calling a method a value does not have. */
  const TypeError: Thrown := OtherError("TypeError", "")
}
