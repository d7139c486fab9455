/**
 * `TransactionControllerImpl`: the caller's username comes from the JWT's
 * `preferred_username` claim; a transfer outcome becomes 204 or 422, and the
 * history is passed through with 200. Exceptions thrown by the service go to
 * `GlobalExceptionHandler`, which `TransferEndpoint` composes in.
 */
module TransactionController {
  import opened Wrappers
  import opened Entities
  import opened Dto
  import opened Exceptions
  import opened Http
  import opened Repositories
  import opened TransactionService
  import opened GlobalExceptionHandler

  /** The claims of the authenticated token. */
  type Jwt = map<string, string>

  const PREFERRED_USERNAME: string := "preferred_username"

  /** `principal.getClaim("preferred_username")`; `None` is Java's null. */
  function ClaimedUsername(principal: Jwt): Option<string> {
    if PREFERRED_USERNAME in principal then Some(principal[PREFERRED_USERNAME]) else None
  }

  /** The response the controller builds from a transfer outcome. */
  function TransferResponseEntity(response: TransferMoneyResponse, now: int): ResponseEntity<ExceptionResponse> {
    if response.status == Success then ResponseEntity(NO_CONTENT, None)
    else ResponseEntity(UNPROCESSABLE_ENTITY, Some(ExceptionResponse(now, TransactionNotEnoughMoney, [response.reason])))
  }

  /** The database after a request, and the response or the exception the handler receives. */
  datatype ControllerResult<T> = ControllerResult(tables: Tables, response: Result<ResponseEntity<T>, AppException>)

  /**
   * `transferMoney(request, authentication)`. Without the claim the service is
   * called with a null username, which no user row has: UserNotFound. The
   * clock is read twice: `txDate` by the service for the transaction date,
   * `now` by the controller for the response body.
   */
  function TransferMoney(t: Tables, principal: Jwt, from: Id, to: Id, amount: int, txDate: int, txId: Id,
                         reason: string, now: int): ControllerResult<ExceptionResponse>
  {
    match ClaimedUsername(principal)
    case None => ControllerResult(t, Err(UserNotFoundException))
    case Some(username) =>
      var r := Transfer(t, username, from, to, amount, txDate, txId, reason);
      match r.response
      case Err(e) => ControllerResult(r.tables, Err(e))
      case Ok(response) => ControllerResult(r.tables, Ok(TransferResponseEntity(response, now)))
  }

  /** `accountHistory(accountId, authentication)`. */
  function AccountHistory(t: Tables, principal: Jwt, accountId: Id)
    : Result<ResponseEntity<seq<TransactionHistoryResponse>>, AppException>
  {
    match ClaimedUsername(principal)
    case None => Err(UserNotFoundException)
    case Some(username) =>
      match History(t, username, accountId)
      case Err(e) => Err(e)
      case Ok(list) => Ok(ResponseEntity(OK, Some(list)))
  }

  /**
   * The transfer endpoint with the exception handler applied: what the client
   * receives. `txDate` is the service's clock reading and `now` the one taken
   * when the response body is built, by the controller or by the handler.
   */
  function TransferEndpoint(t: Tables, principal: Jwt, from: Id, to: Id, amount: int, txDate: int, txId: Id,
                            messageSource: string -> string, now: int): (Tables, ResponseEntity<ExceptionResponse>)
  {
    var r := TransferMoney(t, principal, from, to, amount, txDate, txId, messageSource(NOT_ENOUGH_MONEY_KEY), now);
    match r.response
    case Ok(entity) => (r.tables, entity)
    case Err(e) => (r.tables, Handle(e, messageSource, now))
  }

  // ---------------------------------------------------------------------------
  // Properties

  /** SUCCESS is answered 204 without a body; FAILED 422 with TRANSACTION_NOT_ENOUGH_MONEY and the reason as the only error. */
  lemma TransferResponseMapping(response: TransferMoneyResponse, now: int)
    ensures var r := TransferResponseEntity(response, now);
            && (response.status == Success <==> r.status == NO_CONTENT)
            && (response.status == Success ==> r.body.None?)
            && (response.status != Success ==>
                  r.status == UNPROCESSABLE_ENTITY &&
                  r.body == Some(ExceptionResponse(now, TransactionNotEnoughMoney, [response.reason])))
  {
  }

  /** The service sees the claimed username: the controller's database effect is the service's. */
  lemma TransferUsesClaim(t: Tables, principal: Jwt, from: Id, to: Id, amount: int, txDate: int, txId: Id,
                          reason: string, now: int)
    requires PREFERRED_USERNAME in principal
    ensures var r := TransferMoney(t, principal, from, to, amount, txDate, txId, reason, now);
            var s := Transfer(t, principal[PREFERRED_USERNAME], from, to, amount, txDate, txId, reason);
            && r.tables == s.tables
            && (r.response.Err? <==> s.response.Err?)
            && (s.response.Err? ==> r.response.error == s.response.error)
            && (s.response.Ok? ==> r.response.value == TransferResponseEntity(s.response.value, now))
  {
  }

  /** A token without the claim is refused with UserNotFound and changes nothing. */
  lemma MissingClaimIsUserNotFound(t: Tables, principal: Jwt, from: Id, to: Id, amount: int, txDate: int, txId: Id,
                                   reason: string, now: int, accountId: Id)
    requires PREFERRED_USERNAME !in principal
    ensures TransferMoney(t, principal, from, to, amount, txDate, txId, reason, now)
            == ControllerResult(t, Err(UserNotFoundException))
    ensures AccountHistory(t, principal, accountId) == Err(UserNotFoundException)
  {
  }

  /** The history is answered 200 with the service's list as it is. */
  lemma HistoryPassThrough(t: Tables, principal: Jwt, accountId: Id)
    requires PREFERRED_USERNAME in principal
    requires History(t, principal[PREFERRED_USERNAME], accountId).Ok?
    ensures AccountHistory(t, principal, accountId) ==
            Ok(ResponseEntity(OK, Some(History(t, principal[PREFERRED_USERNAME], accountId).value)))
  {
  }

  // ---------------------------------------------------------------------------
  // End to end

  /**
   * A covered transfer between two accounts of the caller: 204, the source
   * debited, the destination credited, and one SUCCESS record saved.
   */
  lemma EndpointSuccess(t: Tables, principal: Jwt, user: User, from: Id, to: Id, amount: int, txDate: int,
                        txId: Id, messageSource: string -> string, now: int)
    requires PREFERRED_USERNAME in principal
    requires FindByUsername(t.users, principal[PREFERRED_USERNAME]) == Some(user)
    requires Resolves(t, user, from, to)
    requires t.accounts[from].balance >= amount
    ensures var (tables, entity) := TransferEndpoint(t, principal, from, to, amount, txDate, txId, messageSource, now);
            && entity == ResponseEntity(NO_CONTENT, None)
            && tables.accounts[from].balance == t.accounts[from].balance - amount
            && tables.accounts[to].balance == t.accounts[to].balance + amount
            && tables.transactions == t.transactions + [Transaction(txId, from, to, amount, txDate, Success)]
  {
    TransferSucceeds(t, principal[PREFERRED_USERNAME], user, from, to, amount, txDate, txId, messageSource(NOT_ENOUGH_MONEY_KEY));
  }

  /**
   * An uncovered transfer: 422 with TRANSACTION_NOT_ENOUGH_MONEY and the
   * resolved reason, balances untouched, one FAILED record saved.
   */
  lemma EndpointInsufficientFunds(t: Tables, principal: Jwt, user: User, from: Id, to: Id, amount: int,
                                  txDate: int, txId: Id, messageSource: string -> string, now: int)
    requires PREFERRED_USERNAME in principal
    requires FindByUsername(t.users, principal[PREFERRED_USERNAME]) == Some(user)
    requires Resolves(t, user, from, to)
    requires t.accounts[from].balance < amount
    ensures var (tables, entity) := TransferEndpoint(t, principal, from, to, amount, txDate, txId, messageSource, now);
            && entity == ResponseEntity(UNPROCESSABLE_ENTITY,
                                        Some(ExceptionResponse(now, TransactionNotEnoughMoney,
                                                               [messageSource(NOT_ENOUGH_MONEY_KEY)])))
            && tables.accounts == t.accounts
            && tables.transactions == t.transactions + [Transaction(txId, from, to, amount, txDate, Failed)]
  {
    TransferInsufficientFunds(t, principal[PREFERRED_USERNAME], user, from, to, amount, txDate, txId,
                              messageSource(NOT_ENOUGH_MONEY_KEY));
  }

  /**
   * A transfer naming an account the caller does not own (or the same
   * account twice): 404 with USER_NOT_FOUND and the account-not-found message,
   * and the database is unchanged.
   */
  lemma EndpointAccountNotFound(t: Tables, principal: Jwt, user: User, from: Id, to: Id, amount: int,
                                txDate: int, txId: Id, messageSource: string -> string, now: int)
    requires PREFERRED_USERNAME in principal
    requires FindByUsername(t.users, principal[PREFERRED_USERNAME]) == Some(user)
    requires !Resolves(t, user, from, to)
    ensures var (tables, entity) := TransferEndpoint(t, principal, from, to, amount, txDate, txId, messageSource, now);
            && tables == t
            && entity == ResponseEntity(NOT_FOUND, Some(ExceptionResponse(now, UserNotFound,
                                                                         [messageSource("app.account.not.found")])))
  {
    TransferAccountNotFound(t, principal[PREFERRED_USERNAME], user, from, to, amount, txDate, txId,
                            messageSource(NOT_ENOUGH_MONEY_KEY));
  }
}
