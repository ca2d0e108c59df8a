/**
 * RestExceptionHandler: turns a `BadRequestException` and a failed bean
 * validation (`MethodArgumentNotValidException`) into the JSON detail records
 * sent back with HTTP 400.
 */
module Handler {
  import opened Wrappers
  import opened Joining
  import opened Http

  /** `LocalDateTime.now()`, read by the handler and passed in here. */
  datatype Timestamp = Timestamp(isoText: string)

  const BadRequestTitle := "Bad Requests Exception, check the Documentation"
  const ValidationTitle := "Not valid, check the field(s) below"

  /** The separator `Collectors.joining(", ")` writes between elements. */
  const Separator := ", "

  /** A thrown exception as the handler reads it: `getMessage()` (possibly null) and `getClass().getName()`. */
  datatype ThrownException = ThrownException(message: Option<string>, className: string)

  /** Spring's `FieldError`: the field name and its default message, which may be null. */
  datatype FieldError = FieldError(field: string, defaultMessage: Option<string>)

  /**
   * The response bodies: both extend `ExceptionDetails` (timestamp, status,
   * title, details, developerMessage); the validation one adds the two
   * joined strings.
   */
  datatype ExceptionDetails =
    | BadRequestExceptionDetail(timestamp: Timestamp, status: int, title: string,
                                details: Option<string>, developerMessage: string)
    | ValidationExceptionDetail(timestamp: Timestamp, status: int, title: string,
                                details: Option<string>, developerMessage: string,
                                fields: string, fieldsMessage: string)

  /** `ResponseEntity(body, status)`. */
  datatype ResponseEntity = ResponseEntity(body: ExceptionDetails, status: HttpStatus)

  /** How `StringJoiner` writes a null element: as the text "null". */
  function MessageText(m: Option<string>): string
  {
    match m
    case Some(text) => text
    case None => "null"
  }

  /** `fieldErrors.stream().map(FieldError::getField)`. */
  function FieldNames(errors: seq<FieldError>): (r: seq<string>)
    ensures |r| == |errors|
    ensures forall k :: 0 <= k < |errors| ==> r[k] == errors[k].field
  {
    seq(|errors|, k requires 0 <= k < |errors| => errors[k].field)
  }

  /** `fieldErrors.stream().map(FieldError::getDefaultMessage)`, null written as "null". */
  function DefaultMessages(errors: seq<FieldError>): (r: seq<string>)
    ensures |r| == |errors|
    ensures forall k :: 0 <= k < |errors| ==> r[k] == MessageText(errors[k].defaultMessage)
  {
    seq(|errors|, k requires 0 <= k < |errors| => MessageText(errors[k].defaultMessage))
  }

  /** `handlerBadRequestException`. */
  function HandlerBadRequestException(bre: ThrownException, now: Timestamp): (r: ResponseEntity)
    ensures r.status == BAD_REQUEST
    ensures r.body.BadRequestExceptionDetail?
    ensures r.body.status == 400 && r.body.title == BadRequestTitle
    ensures r.body.details == bre.message && r.body.developerMessage == bre.className
    ensures r.body.timestamp == now
  {
    ResponseEntity(
      BadRequestExceptionDetail(now, BAD_REQUEST.value, BadRequestTitle, bre.message, bre.className),
      BAD_REQUEST)
  }

  /**
   * `handleMethodArgumentNotValid`. The `status` Spring passes in is not used:
   * the answer is always BAD_REQUEST. Headers and the web request are not read
   * and are left out of the signature.
   */
  function HandleMethodArgumentNotValid(ex: ThrownException, fieldErrors: seq<FieldError>,
                                        status: HttpStatus, now: Timestamp): (r: ResponseEntity)
    ensures r.status == BAD_REQUEST
    ensures r.body.ValidationExceptionDetail?
    ensures r.body.status == 400 && r.body.title == ValidationTitle
    ensures r.body.details == ex.message && r.body.developerMessage == ex.className
    ensures r.body.timestamp == now
    ensures |fieldErrors| == 0 ==> r.body.fields == "" && r.body.fieldsMessage == ""
    ensures |fieldErrors| == 1 ==>
      r.body.fields == fieldErrors[0].field &&
      r.body.fieldsMessage == MessageText(fieldErrors[0].defaultMessage)
  {
    var fields := Join(FieldNames(fieldErrors), Separator);
    var fieldsMessage := Join(DefaultMessages(fieldErrors), Separator);
    ResponseEntity(
      ValidationExceptionDetail(now, BAD_REQUEST.value, ValidationTitle, ex.message, ex.className,
                                fields, fieldsMessage),
      BAD_REQUEST)
  }

  /**
   * One more field error appends ", field" to `fields` and ", message" to
   * `fieldsMessage`: both strings list the errors in the order of the error
   * list, so their n-th entries belong to the same error.
   */
  lemma ValidationPayloadAppend(ex: ThrownException, errors: seq<FieldError>, e: FieldError,
                                status: HttpStatus, now: Timestamp)
    requires |errors| > 0
    ensures var before := HandleMethodArgumentNotValid(ex, errors, status, now).body;
            var after := HandleMethodArgumentNotValid(ex, errors + [e], status, now).body;
            after.fields == before.fields + ", " + e.field &&
            after.fieldsMessage == before.fieldsMessage + ", " + MessageText(e.defaultMessage)
  {
    assert FieldNames(errors + [e]) == FieldNames(errors) + [e.field];
    assert DefaultMessages(errors + [e]) == DefaultMessages(errors) + [MessageText(e.defaultMessage)];
    JoinAppend(FieldNames(errors), Separator, e.field);
    JoinAppend(DefaultMessages(errors), Separator, MessageText(e.defaultMessage));
  }

  /**
   * When no field name contains a comma, `fields` determines the field list
   * of a non-empty error list: cutting it at ", " gives the names back, in order.
   */
  lemma FieldsListTheErrors(ex: ThrownException, errors: seq<FieldError>,
                            status: HttpStatus, now: Timestamp)
    requires |errors| > 0
    requires forall k :: 0 <= k < |errors| ==> ',' !in errors[k].field
    ensures Split(HandleMethodArgumentNotValid(ex, errors, status, now).body.fields, Separator)
            == FieldNames(errors)
  {
    var names := FieldNames(errors);
    assert forall p :: p in names ==> Separator[0] !in p;
    SplitJoin(names, Separator);
  }
}
