/** `GlobalExceptionHandler`: maps the exception a request ended with to an
    HTTP status and an `ApiErrorResponse` body. Spring picks the handler for
    the most specific exception type; `Handle` makes that choice by matching
    on the exception kind. */
module ExceptionHandler {
  import opened Wrappers
  import opened Entities

  const GENERIC_MESSAGE: string := "Something went wrong. Please try again."
  const FIELD_SEPARATOR: string := ": "
  const ERROR_DELIMITER: string := ", "

  /** The four `HttpStatus` values the handler uses. */
  datatype HttpStatus = BadRequest | Unauthorized | Conflict | InternalServerError
  {
    function Value(): int
    {
      match this
      case BadRequest => 400
      case Unauthorized => 401
      case Conflict => 409
      case InternalServerError => 500
    }

    function ReasonPhrase(): string
    {
      match this
      case BadRequest => "Bad Request"
      case Unauthorized => "Unauthorized"
      case Conflict => "Conflict"
      case InternalServerError => "Internal Server Error"
    }
  }

  /** A binding `FieldError`; its default message may be null. */
  datatype FieldError = FieldError(field: string, defaultMessage: Option<string>)

  /** The exceptions that reach the handler. */
  datatype HandledException =
    | UserAlreadyExistsException(message: string)
    | InvalidCredentialsException(message: string)
    | MethodArgumentNotValidException(fieldErrors: seq<FieldError>)
    | OtherException(message: string)

  datatype ApiErrorResponse = ApiErrorResponse(
    status: int,
    error: string,
    message: string,
    path: string,
    timestamp: Timestamp)

  /** `ResponseEntity<ApiErrorResponse>`: the body and the response's status. */
  datatype ResponseEntity = ResponseEntity(body: ApiErrorResponse, statusCode: HttpStatus)

  /** Java string concatenation renders a null message as "null". */
  function MessageText(message: Option<string>): string
  {
    match message
    case Some(m) => m
    case None => "null"
  }

  /** One field error as it appears in the aggregated message. */
  function RenderFieldError(err: FieldError): string
  {
    err.field + FIELD_SEPARATOR + MessageText(err.defaultMessage)
  }

  /** `Collectors.joining(", ")` as `StringJoiner` performs it: each part after
      the first is appended behind the delimiter. */
  function JoinLeft(parts: seq<string>): string
  {
    if |parts| == 0 then ""
    else if |parts| == 1 then parts[0]
    else JoinLeft(parts[..|parts| - 1]) + ERROR_DELIMITER + parts[|parts| - 1]
  }

  /** The same join read from the front: the first part, then the delimiter
      and the join of the rest. */
  function JoinRight(parts: seq<string>): string
  {
    if |parts| == 0 then ""
    else if |parts| == 1 then parts[0]
    else parts[0] + ERROR_DELIMITER + JoinRight(parts[1..])
  }

  /** Appending at the back of the front-first join. */
  lemma {:induction false} JoinRightSnoc(parts: seq<string>, last: string)
    requires |parts| > 0
    ensures JoinRight(parts + [last]) == JoinRight(parts) + ERROR_DELIMITER + last
  {
    if |parts| == 1 {
      assert parts + [last] == [parts[0], last];
      assert (parts + [last])[1..] == [last];
    } else {
      assert (parts + [last])[1..] == parts[1..] + [last];
      JoinRightSnoc(parts[1..], last);
    }
  }

  /** The two readings of the join agree on every sequence of parts. */
  lemma {:induction false} JoinLeftIsJoinRight(parts: seq<string>)
    ensures JoinLeft(parts) == JoinRight(parts)
  {
    if |parts| > 1 {
      var init := parts[..|parts| - 1];
      JoinLeftIsJoinRight(init);
      JoinRightSnoc(init, parts[|parts| - 1]);
      assert init + [parts[|parts| - 1]] == parts;
    }
  }

  /** The validation message: every field error rendered `field: message`,
      in order, joined with ", ". */
  function ValidationMessage(errors: seq<FieldError>): (message: string)
    ensures errors == [] ==> message == ""
    ensures |errors| == 1 ==> message == RenderFieldError(errors[0])
    ensures |errors| > 1 ==>
      message == RenderFieldError(errors[0]) + ERROR_DELIMITER + ValidationMessage(errors[1..])
  {
    var parts := seq(|errors|, i requires 0 <= i < |errors| => RenderFieldError(errors[i]));
    JoinLeftIsJoinRight(parts);
    if |errors| > 1 then
      var tail := seq(|errors| - 1, i requires 0 <= i < |errors| - 1 => RenderFieldError(errors[1..][i]));
      assert parts[1..] == tail;
      JoinLeftIsJoinRight(tail);
      JoinLeft(parts)
    else
      JoinLeft(parts)
  }

  /** `buildResponse`: the body's status is the response's status code, its
      error is that status's reason phrase, and message, path and timestamp
      are the ones given. */
  function BuildResponse(status: HttpStatus, message: string, path: string, now: Timestamp): (r: ResponseEntity)
    ensures r.statusCode == status
    ensures r.body.status == r.statusCode.Value()
    ensures r.body.error == r.statusCode.ReasonPhrase()
    ensures r.body.message == message && r.body.path == path && r.body.timestamp == now
  {
    ResponseEntity(ApiErrorResponse(status.Value(), status.ReasonPhrase(), message, path, now), status)
  }

  /** The four `@ExceptionHandler` methods, keyed by exception kind. */
  function Handle(ex: HandledException, requestUri: string, now: Timestamp): (r: ResponseEntity)
    ensures r.body.status == r.statusCode.Value()
    ensures r.body.error == r.statusCode.ReasonPhrase()
    ensures r.body.path == requestUri && r.body.timestamp == now
    ensures ex.UserAlreadyExistsException? ==> r.statusCode == Conflict && r.body.status == 409 && r.body.message == ex.message
    ensures ex.InvalidCredentialsException? ==> r.statusCode == Unauthorized && r.body.status == 401 && r.body.message == ex.message
    ensures ex.MethodArgumentNotValidException? ==>
      r.statusCode == BadRequest && r.body.status == 400 && r.body.message == ValidationMessage(ex.fieldErrors)
    ensures ex.OtherException? ==>
      r.statusCode == InternalServerError && r.body.status == 500 && r.body.message == GENERIC_MESSAGE
  {
    match ex
    case UserAlreadyExistsException(message) => BuildResponse(Conflict, message, requestUri, now)
    case InvalidCredentialsException(message) => BuildResponse(Unauthorized, message, requestUri, now)
    case MethodArgumentNotValidException(errors) => BuildResponse(BadRequest, ValidationMessage(errors), requestUri, now)
    case OtherException(_) => BuildResponse(InternalServerError, GENERIC_MESSAGE, requestUri, now)
  }
}
