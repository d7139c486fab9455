/**
 * `GlobalExceptionHandler`: the HTTP answer for every exception a request
 * can end in. `messageSource` resolves a message key to its English text and
 * `now` is the clock.
 */
module GlobalExceptionHandler {
  import opened Wrappers
  import opened Exceptions
  import opened Http

  const RESOURCE_ALREADY_EXISTS_KEY: string := "app.resource.already.exists"
  const INTERNAL_SERVER_ERROR_KEY: string := "app.internal.server.error"

  /** `handleMethodArgumentNotValid`: each field error's message, in binding order. */
  function FieldMessages(fieldErrors: seq<FieldError>): (r: seq<string>)
    ensures |r| == |fieldErrors|
    ensures forall i :: 0 <= i < |r| ==> r[i] == fieldErrors[i].defaultMessage
  {
    seq(|fieldErrors|, i requires 0 <= i < |fieldErrors| => fieldErrors[i].defaultMessage)
  }

  /** The handler Spring selects for the exception, and the response it builds. */
  function Handle(e: AppException, messageSource: string -> string, now: int): ResponseEntity<ExceptionResponse> {
    match e
    case MethodArgumentNotValidException(fieldErrors) =>
      ResponseEntity(BAD_REQUEST, Some(ExceptionResponse(now, InvalidRequest, FieldMessages(fieldErrors))))
    case UserAlreadyExistsException =>
      ResponseEntity(BAD_REQUEST, Some(ExceptionResponse(now, UserAlreadyExists, [messageSource(e.MessageKey())])))
    case UserOrPasswordInvalidException =>
      ResponseEntity(BAD_REQUEST, Some(ExceptionResponse(now, InvalidRequest, [messageSource(e.MessageKey())])))
    case UserNotFoundException =>
      ResponseEntity(NOT_FOUND, Some(ExceptionResponse(now, UserNotFound, [messageSource(e.MessageKey())])))
    case AccountNotFoundException =>
      ResponseEntity(NOT_FOUND, Some(ExceptionResponse(now, UserNotFound, [messageSource(e.MessageKey())])))
    case DataIntegrityViolationException =>
      ResponseEntity(BAD_REQUEST, Some(ExceptionResponse(now, ResourceAlreadyExists, [messageSource(RESOURCE_ALREADY_EXISTS_KEY)])))
    case OtherException(_) =>
      ResponseEntity(INTERNAL_SERVER_ERROR, Some(ExceptionResponse(now, UserAlreadyExists, [messageSource(INTERNAL_SERVER_ERROR_KEY)])))
  }

  /**
   * Every exception gets a body stamped with the clock. Not-found kinds are
   * answered 404, unknown exceptions 500, everything else 400.
   */
  lemma HandleStatus(e: AppException, messageSource: string -> string, now: int)
    ensures var r := Handle(e, messageSource, now);
            && r.body.Some? && r.body.value.timestamp == now
            && (r.status == NOT_FOUND <==> e.UserNotFoundException? || e.AccountNotFoundException?)
            && (r.status == INTERNAL_SERVER_ERROR <==> e.OtherException?)
            && (r.status == BAD_REQUEST <==>
                  e.MethodArgumentNotValidException? || e.UserAlreadyExistsException? ||
                  e.UserOrPasswordInvalidException? || e.DataIntegrityViolationException?)
  {
  }

  /** Field validation failures: 400, INVALID_REQUEST, one message per field error in binding order. */
  lemma ValidationFailureResponse(fieldErrors: seq<FieldError>, messageSource: string -> string, now: int)
    ensures var r := Handle(MethodArgumentNotValidException(fieldErrors), messageSource, now);
            && r.status == BAD_REQUEST && r.body.value.code == InvalidRequest
            && |r.body.value.errors| == |fieldErrors|
            && forall i :: 0 <= i < |fieldErrors| ==> r.body.value.errors[i] == fieldErrors[i].defaultMessage
  {
  }

  /**
   * Every other kind carries exactly one message: the resolved message key
   * of the exception, or the handler's own key for DataIntegrityViolation and
   * unknown exceptions.
   */
  lemma SingleMessageResponses(e: AppException, messageSource: string -> string, now: int)
    requires !e.MethodArgumentNotValidException?
    ensures var r := Handle(e, messageSource, now);
            r.body.value.errors == [messageSource(
              if e.DataIntegrityViolationException? then RESOURCE_ALREADY_EXISTS_KEY
              else if e.OtherException? then INTERNAL_SERVER_ERROR_KEY
              else e.MessageKey())]
  {
  }

  /**
   * The codes as written: UserAlreadyExists gets USER_ALREADY_EXISTS, a wrong
   * password INVALID_REQUEST, both not-found kinds USER_NOT_FOUND, an integrity
   * violation RESOURCE_ALREADY_EXISTS, and an unknown exception the code
   * USER_ALREADY_EXISTS as well.
   */
  lemma HandleCodes(messageSource: string -> string, now: int, description: string)
    ensures Handle(UserAlreadyExistsException, messageSource, now).body.value.code == UserAlreadyExists
    ensures Handle(UserOrPasswordInvalidException, messageSource, now).body.value.code == InvalidRequest
    ensures Handle(UserNotFoundException, messageSource, now).body.value.code == UserNotFound
    ensures Handle(AccountNotFoundException, messageSource, now).body.value.code == UserNotFound
    ensures Handle(DataIntegrityViolationException, messageSource, now).body.value.code == ResourceAlreadyExists
    ensures Handle(OtherException(description), messageSource, now).body.value.code == UserAlreadyExists
  {
  }

  /** A client can tell an unknown account from an unknown user only by the message, not by status or code. */
  lemma NotFoundKindsShareStatusAndCode(messageSource: string -> string, now: int)
    ensures var u := Handle(UserNotFoundException, messageSource, now);
            var a := Handle(AccountNotFoundException, messageSource, now);
            u.status == a.status && u.body.value.code == a.body.value.code
  {
  }
}
