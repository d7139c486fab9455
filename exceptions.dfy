/**
 * The error vocabulary of the backend: the exception classes the services
 * throw (the classes of the `exception` package), the codes of `ExceptionCode.java` and the
 * `ExceptionResponse` body (`dto/ExceptionResponse.java`).
 */
module Exceptions {

  /** `ExceptionCode`, serialised by its code string. */
  datatype ExceptionCode =
    | InvalidRequest
    | UserAlreadyExists
    | UserNotFound
    | ResourceAlreadyExists
    | TransactionNotEnoughMoney
  {
    function Code(): string {
      match this
      case InvalidRequest => "APP0001"
      case UserAlreadyExists => "APP0002"
      case UserNotFound => "APP0003"
      case ResourceAlreadyExists => "APP0004"
      case TransactionNotEnoughMoney => "APP0005"
    }
  }

  /** Distinct codes serialise to distinct strings, so a client can tell them apart. */
  lemma CodesDistinct(a: ExceptionCode, b: ExceptionCode)
    ensures a.Code() == b.Code() <==> a == b
  {
    match a
    case InvalidRequest =>
    case UserAlreadyExists =>
    case UserNotFound =>
    case ResourceAlreadyExists =>
    case TransactionNotEnoughMoney =>
  }

  /** A Spring `FieldError`: the bound field and its already-interpolated message. */
  datatype FieldError = FieldError(field: string, defaultMessage: string)

  /**
   * Everything a request can end in besides a normal result. The first four
   * carry the message key their `withDefaultMessage` factory sets.
   */
  datatype AppException =
    | UserNotFoundException
    | AccountNotFoundException
    | UserAlreadyExistsException
    | UserOrPasswordInvalidException
    | MethodArgumentNotValidException(fieldErrors: seq<FieldError>)
    | DataIntegrityViolationException
    | OtherException(description: string)
  {
    /** The message key of the exceptions thrown through `withDefaultMessage`. */
    function MessageKey(): string
      requires UserNotFoundException? || AccountNotFoundException? || UserAlreadyExistsException? || UserOrPasswordInvalidException?
    {
      match this
      case UserNotFoundException => "app.user.not.found"
      case AccountNotFoundException => "app.account.not.found"
      case UserAlreadyExistsException => "app.user.already.exists"
      case UserOrPasswordInvalidException => "app.identifier.invalid"
    }
  }

  /** The JSON body of every error response. */
  datatype ExceptionResponse = ExceptionResponse(timestamp: int, code: ExceptionCode, errors: seq<string>)
}

/** The part of Spring's `ResponseEntity` the controllers use: a status and an optional body. */
module Http {
  import opened Wrappers

  const OK: int := 200
  const NO_CONTENT: int := 204
  const BAD_REQUEST: int := 400
  const NOT_FOUND: int := 404
  const UNPROCESSABLE_ENTITY: int := 422
  const INTERNAL_SERVER_ERROR: int := 500

  datatype ResponseEntity<T> = ResponseEntity(status: int, body: Option<T>)
}
