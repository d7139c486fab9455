/**
 * The money-transfer ledger: `DBTransactionService.transferMoney`, its private
 * debit/credit step, and `accountHistory`.
 *
 * `Transfer` is the specification of one transfer over a database snapshot;
 * the class `DBTransactionService` performs the same steps in place on the
 * shared `Repositories` and is proved to agree with it. The properties of the
 * ledger are lemmas about `Transfer`.
 */
module TransactionService {
  import opened Wrappers
  import opened Entities
  import opened Dto
  import opened Exceptions
  import opened Repositories

  /** The message key of the insufficient-funds reason. */
  const NOT_ENOUGH_MONEY_KEY: string := "app.transaction.not.enough.money"

  /** The database after a call, and what the call returned or threw. */
  datatype TransferResult = TransferResult(tables: Tables, response: Result<TransferMoneyResponse, AppException>)

  /**
   * The private `transferMoney(from, to, amount)`: debit `from`, credit `to`;
   * its only caller passes two different accounts.
   */
  function MoveFunds(accounts: map<Id, Account>, from: Id, to: Id, amount: int): map<Id, Account>
    requires from in accounts && to in accounts && from != to
  {
    accounts[from := accounts[from].(balance := accounts[from].balance - amount)]
            [to := accounts[to].(balance := accounts[to].balance + amount)]
  }

  /**
   * One call of `transferMoney(username, request)` on the snapshot `t`, where
   * `now` is the clock, `txId` the id the database gives the new transaction
   * row and `reason` the resolved insufficient-funds message.
   */
  function Transfer(t: Tables, username: string, from: Id, to: Id, amount: int,
                    now: int, txId: Id, reason: string): TransferResult
  {
    match FindByUsername(t.users, username)
    case None => TransferResult(t, Err(UserNotFoundException))
    case Some(user) =>
      var found := FindAllByIdInAndUser(t.accounts, [from, to], user.id);
      if |found| != 2 then TransferResult(t, Err(AccountNotFoundException))
      else
        PairLookup(t.accounts, from, to, user.id);
        var pending := Transaction(txId, from, to, amount, now, Failed);
        if t.accounts[from].balance < amount then
          TransferResult(t.(transactions := t.transactions + [pending]),
                         Ok(TransferMoneyResponse(Failed, reason)))
        else
          TransferResult(Tables(t.users,
                                MoveFunds(t.accounts, from, to, amount),
                                t.transactions + [pending.(status := Success)]),
                         Ok(TransferMoneyResponse(Success, "")))
  }

  /** The caller owns both accounts of the request, and they are different. */
  predicate Resolves(t: Tables, user: User, from: Id, to: Id) {
    from != to && ExistsByIdAndUser(t.accounts, from, user.id) && ExistsByIdAndUser(t.accounts, to, user.id)
  }

  // ---------------------------------------------------------------------------
  // Properties of one transfer

  /** An unknown username raises UserNotFound and changes nothing. */
  lemma TransferUnknownUser(t: Tables, username: string, from: Id, to: Id, amount: int, now: int, txId: Id, reason: string)
    requires FindByUsername(t.users, username).None?
    ensures Transfer(t, username, from, to, amount, now, txId, reason) == TransferResult(t, Err(UserNotFoundException))
  {
  }

  /**
   * Unless the caller owns both accounts and they differ (same id twice, a
   * missing id, an account of someone else), AccountNotFound is raised and
   * nothing changes, in particular no transaction is saved.
   */
  lemma TransferAccountNotFound(t: Tables, username: string, user: User, from: Id, to: Id, amount: int,
                                now: int, txId: Id, reason: string)
    requires FindByUsername(t.users, username) == Some(user)
    requires !Resolves(t, user, from, to)
    ensures Transfer(t, username, from, to, amount, now, txId, reason) == TransferResult(t, Err(AccountNotFoundException))
  {
    PairLookup(t.accounts, from, to, user.id);
  }

  /**
   * Insufficient funds: exactly one FAILED transaction with these accounts
   * and this amount is appended, no balance changes, and the response is
   * FAILED with the reason.
   */
  lemma TransferInsufficientFunds(t: Tables, username: string, user: User, from: Id, to: Id, amount: int,
                                  now: int, txId: Id, reason: string)
    requires FindByUsername(t.users, username) == Some(user)
    requires Resolves(t, user, from, to)
    requires t.accounts[from].balance < amount
    ensures var r := Transfer(t, username, from, to, amount, now, txId, reason);
            && r.tables.users == t.users
            && r.tables.accounts == t.accounts
            && r.tables.transactions == t.transactions + [Transaction(txId, from, to, amount, now, Failed)]
            && r.response == Ok(TransferMoneyResponse(Failed, reason))
  {
    PairLookup(t.accounts, from, to, user.id);
  }

  /**
   * Sufficient funds: the source loses exactly `amount`, the destination gains
   * exactly `amount`, no other account changes, exactly one SUCCESS
   * transaction is appended and the reason is empty.
   */
  lemma TransferSucceeds(t: Tables, username: string, user: User, from: Id, to: Id, amount: int,
                         now: int, txId: Id, reason: string)
    requires FindByUsername(t.users, username) == Some(user)
    requires Resolves(t, user, from, to)
    requires t.accounts[from].balance >= amount
    ensures var r := Transfer(t, username, from, to, amount, now, txId, reason);
            && r.tables.users == t.users
            && r.tables.accounts.Keys == t.accounts.Keys
            && r.tables.accounts[from] == t.accounts[from].(balance := t.accounts[from].balance - amount)
            && r.tables.accounts[to] == t.accounts[to].(balance := t.accounts[to].balance + amount)
            && (forall k :: k in t.accounts && k != from && k != to ==> r.tables.accounts[k] == t.accounts[k])
            && r.tables.transactions == t.transactions + [Transaction(txId, from, to, amount, now, Success)]
            && r.response == Ok(TransferMoneyResponse(Success, ""))
  {
    PairLookup(t.accounts, from, to, user.id);
  }

  /** The sufficiency check is strict: a balance equal to the amount succeeds and ends at zero. */
  lemma ExactBalanceSuffices(t: Tables, username: string, user: User, from: Id, to: Id, amount: int,
                             now: int, txId: Id, reason: string)
    requires FindByUsername(t.users, username) == Some(user)
    requires Resolves(t, user, from, to)
    requires t.accounts[from].balance == amount
    ensures var r := Transfer(t, username, from, to, amount, now, txId, reason);
            r.response == Ok(TransferMoneyResponse(Success, "")) && r.tables.accounts[from].balance == 0
  {
    TransferSucceeds(t, username, user, from, to, amount, now, txId, reason);
  }

  /** A transfer never touches the user table, and a raised error leaves the whole database as it was. */
  lemma TransferFrame(t: Tables, username: string, from: Id, to: Id, amount: int, now: int, txId: Id, reason: string)
    ensures var r := Transfer(t, username, from, to, amount, now, txId, reason);
            && r.tables.users == t.users
            && (r.response.Err? ==> r.tables == t)
            && (r.response.Ok? ==> |r.tables.transactions| == |t.transactions| + 1)
  {
  }

  // ---------------------------------------------------------------------------
  // Money is conserved

  /** The sum of all balances in the bank. */
  ghost function Total(accounts: map<Id, Account>): int
    decreases |accounts|
  {
    if accounts == map[] then 0
    else
      var k :| k in accounts;
      accounts[k].balance + Total(accounts - {k})
  }

  lemma {:induction false} TotalRemove(accounts: map<Id, Account>, k: Id)
    requires k in accounts
    ensures Total(accounts) == accounts[k].balance + Total(accounts - {k})
    decreases |accounts|
  {
    var j :| j in accounts && Total(accounts) == accounts[j].balance + Total(accounts - {j});
    if j != k {
      var rest := accounts - {j} - {k};
      assert accounts - {j} - {k} == accounts - {k} - {j};
      TotalRemove(accounts - {j}, k);
      TotalRemove(accounts - {k}, j);
    }
  }

  lemma TotalUpdate(accounts: map<Id, Account>, k: Id, a: Account)
    requires k in accounts
    ensures Total(accounts[k := a]) == Total(accounts) - accounts[k].balance + a.balance
  {
    TotalRemove(accounts[k := a], k);
    TotalRemove(accounts, k);
    assert accounts[k := a] - {k} == accounts - {k};
  }

  /** Whatever its outcome, a transfer leaves the total of all balances unchanged. */
  lemma TransferConservesTotal(t: Tables, username: string, from: Id, to: Id, amount: int, now: int, txId: Id, reason: string)
    ensures Total(Transfer(t, username, from, to, amount, now, txId, reason).tables.accounts) == Total(t.accounts)
  {
    var r := Transfer(t, username, from, to, amount, now, txId, reason);
    if r.tables.accounts != t.accounts {
      var user := FindByUsername(t.users, username).value;
      PairLookup(t.accounts, from, to, user.id);
      var src := t.accounts[from];
      var dst := t.accounts[to];
      var debited := t.accounts[from := src.(balance := src.balance - amount)];
      TotalUpdate(t.accounts, from, src.(balance := src.balance - amount));
      TotalUpdate(debited, to, dst.(balance := dst.balance + amount));
    }
  }

  /** Every balance is non-negative. */
  predicate NonNegative(accounts: map<Id, Account>) {
    forall k :: k in accounts ==> accounts[k].balance >= 0
  }

  /**
   * With a non-negative amount (every amount that passes request validation)
   * a transfer keeps all balances non-negative: the debit only happens when
   * it is covered.
   */
  lemma TransferKeepsNonNegative(t: Tables, username: string, from: Id, to: Id, amount: int, now: int, txId: Id, reason: string)
    requires NonNegative(t.accounts) && amount >= 0
    ensures NonNegative(Transfer(t, username, from, to, amount, now, txId, reason).tables.accounts)
  {
    var r := Transfer(t, username, from, to, amount, now, txId, reason);
    if r.tables.accounts != t.accounts {
      var user := FindByUsername(t.users, username).value;
      PairLookup(t.accounts, from, to, user.id);
    }
  }

  /**
   * The schema's consistency survives a transfer when the new row gets an
   * unused id: the row references two stored accounts, and owners are kept.
   */
  lemma TransferKeepsValid(t: Tables, username: string, from: Id, to: Id, amount: int, now: int, txId: Id, reason: string)
    requires t.Valid() && t.FreshTransactionId(txId)
    ensures Transfer(t, username, from, to, amount, now, txId, reason).tables.Valid()
  {
    var r := Transfer(t, username, from, to, amount, now, txId, reason);
    if r.response.Ok? {
      var user := FindByUsername(t.users, username).value;
      PairLookup(t.accounts, from, to, user.id);
    }
  }

  // ---------------------------------------------------------------------------
  // History

  /** `findAllByFromOrTo(account, account)` mapped through `fromTransaction`. */
  function HistoryOf(ts: seq<Transaction>, account: Id): seq<TransactionHistoryResponse> {
    var q := FindAllByFromOrTo(ts, account);
    seq(|q|, i requires 0 <= i < |q| => FromTransaction(q[i]))
  }

  /**
   * The history of an account is exactly the stored transactions that have it
   * as source or destination, whatever their status, each copied field by
   * field; it has no entry for a transaction between other accounts.
   */
  lemma HistoryOfExactly(ts: seq<Transaction>, account: Id)
    ensures forall h :: h in HistoryOf(ts, account) <==>
              exists i :: 0 <= i < |ts| && Touches(ts[i], account) && h == FromTransaction(ts[i])
  {
    var q := FindAllByFromOrTo(ts, account);
    var r := HistoryOf(ts, account);
    forall h | h in r
      ensures exists i :: 0 <= i < |ts| && Touches(ts[i], account) && h == FromTransaction(ts[i])
    {
      var j :| 0 <= j < |q| && r[j] == h;
      assert q[j] in ts;
      var i :| 0 <= i < |ts| && ts[i] == q[j];
    }
    forall i | 0 <= i < |ts| && Touches(ts[i], account)
      ensures FromTransaction(ts[i]) in r
    {
      assert ts[i] in q;
      var j :| 0 <= j < |q| && q[j] == ts[i];
      assert r[j] == FromTransaction(ts[i]);
    }
  }

  /**
   * A transfer attempt, failed or successful, adds its own record to the
   * history of its two accounts and leaves every other account's history as
   * it was.
   */
  lemma HistoryAfterTransfer(t: Tables, username: string, from: Id, to: Id, amount: int, now: int, txId: Id,
                             reason: string, account: Id)
    ensures var r := Transfer(t, username, from, to, amount, now, txId, reason);
            r.response.Ok? ==>
              HistoryOf(r.tables.transactions, account) ==
              HistoryOf(t.transactions, account) +
              (if account == from || account == to then [FromTransaction(r.tables.transactions[|t.transactions|])] else [])
  {
    var r := Transfer(t, username, from, to, amount, now, txId, reason);
    if r.response.Ok? {
      var tx := r.tables.transactions[|t.transactions|];
      assert r.tables.transactions == t.transactions + [tx];
      FindAllByFromOrToAppend(t.transactions, tx, account);
      var q := FindAllByFromOrTo(t.transactions, account);
      var q' := FindAllByFromOrTo(r.tables.transactions, account);
      assert q' == q + (if Touches(tx, account) then [tx] else []);
      assert HistoryOf(r.tables.transactions, account) == seq(|q'|, i requires 0 <= i < |q'| => FromTransaction(q'[i]));
    }
  }

  /** `accountHistory(username, accountId)` on the snapshot `t`. */
  function History(t: Tables, username: string, accountId: Id): Result<seq<TransactionHistoryResponse>, AppException> {
    match FindByUsername(t.users, username)
    case None => Err(UserNotFoundException)
    case Some(user) =>
      if ExistsByIdAndUser(t.accounts, accountId, user.id) then Ok(HistoryOf(t.transactions, accountId))
      else Err(AccountNotFoundException)
  }

  /**
   * The history of an owned account lists exactly the stored transactions
   * from or to it, FAILED ones included, each copied field by field; an
   * unknown user or an account the caller does not own is refused.
   */
  lemma HistoryCases(t: Tables, username: string, accountId: Id)
    ensures FindByUsername(t.users, username).None? ==> History(t, username, accountId) == Err(UserNotFoundException)
    ensures forall u :: FindByUsername(t.users, username) == Some(u) && !ExistsByIdAndUser(t.accounts, accountId, u.id) ==>
              History(t, username, accountId) == Err(AccountNotFoundException)
    ensures forall u :: FindByUsername(t.users, username) == Some(u) && ExistsByIdAndUser(t.accounts, accountId, u.id) ==>
              && History(t, username, accountId).Ok?
              && forall h :: h in History(t, username, accountId).value <==>
                   exists i :: 0 <= i < |t.transactions| && Touches(t.transactions[i], accountId) &&
                               h == FromTransaction(t.transactions[i])
  {
    HistoryOfExactly(t.transactions, accountId);
  }

  /** The transfer service: `transactionRepository`, `accountRepository` and `userRepository` are one database. */
  class DBTransactionService {
    const repos: Repositories
    /** The `MessageSource`: resolves a message key to its English text. */
    const messageSource: string -> string

    constructor (repos: Repositories, messageSource: string -> string)
      ensures this.repos == repos && this.messageSource == messageSource
    {
      this.repos := repos;
      this.messageSource := messageSource;
    }

    /** The private, synchronized `transferMoney(from, to, amount)`: both balances change, then both are saved. */
    method MoveFundsInPlace(from: Id, to: Id, amount: int)
      requires from in repos.accounts && to in repos.accounts && from != to
      modifies repos
      ensures repos.accounts == MoveFunds(old(repos.accounts), from, to, amount)
      ensures repos.users == old(repos.users) && repos.transactions == old(repos.transactions)
    {
      var source := repos.accounts[from];
      var destination := repos.accounts[to];
      source := source.(balance := source.balance - amount);
      destination := destination.(balance := destination.balance + amount);
      repos.accounts := repos.accounts[from := source];
      repos.accounts := repos.accounts[to := destination];
    }

    /**
     * `transferMoney(username, request)`; `now` is the clock and `txId` the id
     * the database assigns to the saved transaction.
     */
    method TransferMoney(username: string, from: Id, to: Id, amount: int, now: int, txId: Id)
      returns (r: Result<TransferMoneyResponse, AppException>)
      requires repos.Valid() && repos.Snapshot().FreshTransactionId(txId)
      modifies repos
      ensures repos.Valid()
      ensures TransferResult(repos.Snapshot(), r) ==
              Transfer(old(repos.Snapshot()), username, from, to, amount, now, txId, messageSource(NOT_ENOUGH_MONEY_KEY))
    {
      ghost var before := repos.Snapshot();
      TransferKeepsValid(before, username, from, to, amount, now, txId, messageSource(NOT_ENOUGH_MONEY_KEY));
      var user := FindByUsername(repos.users, username);
      if user.None? {
        return Err(UserNotFoundException);
      }
      var accountList := FindAllByIdInAndUser(repos.accounts, [from, to], user.value.id);
      if |accountList| != 2 {
        return Err(AccountNotFoundException);
      }
      PairLookup(repos.accounts, from, to, user.value.id);
      var transaction := Transaction(txId, from, to, amount, now, Failed);
      if repos.accounts[from].balance < amount {
        repos.transactions := repos.transactions + [transaction];
        return Ok(TransferMoneyResponse(transaction.status, messageSource(NOT_ENOUGH_MONEY_KEY)));
      }
      MoveFundsInPlace(from, to, amount);
      transaction := transaction.(status := Success);
      repos.transactions := repos.transactions + [transaction];
      r := Ok(TransferMoneyResponse(transaction.status, ""));
    }

    /** `accountHistory(username, accountId)`. */
    method AccountHistory(username: string, accountId: Id)
      returns (r: Result<seq<TransactionHistoryResponse>, AppException>)
      ensures r == History(repos.Snapshot(), username, accountId)
    {
      var user := FindByUsername(repos.users, username);
      if user.None? {
        return Err(UserNotFoundException);
      }
      var account := FindByIdAndUser(repos.accounts, accountId, user.value.id);
      if account.None? {
        return Err(AccountNotFoundException);
      }
      r := Ok(HistoryOf(repos.transactions, accountId));
    }
  }
}
