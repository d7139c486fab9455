/**
 * Account management: `DBAccountService.createAccount`, `searchAccounts`,
 * `updateAccount`, `deleteAccount` and `getAccount`.
 *
 * As for transfers, each operation has a specification over a database
 * snapshot, and the class `DBAccountService` performs it in place on the
 * shared `Repositories`. Every operation first resolves the caller by
 * username and raises UserNotFound, changing nothing, when that fails.
 */
module AccountService {
  import opened Wrappers
  import opened Entities
  import opened Dto
  import opened Exceptions
  import opened Repositories
  import opened AccountSpecification

  const ACCOUNT_NUMBER_LENGTH: nat := 16

  /** What `createAccount` stores as a number: sixteen decimal digits. */
  predicate IsAccountNumber(n: string) {
    |n| == ACCOUNT_NUMBER_LENGTH && forall i :: 0 <= i < |n| ==> '0' <= n[i] <= '9'
  }

  /** The database after a call, and what the call returned or threw. */
  datatype AccountResult<T> = AccountResult(tables: Tables, response: Result<T, AppException>)

  /** `createAccount`; `number` is the generated number and `newId` the id the database assigns. */
  function Create(t: Tables, username: string, name: string, number: string, newId: Id): AccountResult<Id> {
    match FindByUsername(t.users, username)
    case None => AccountResult(t, Err(UserNotFoundException))
    case Some(user) =>
      AccountResult(t.(accounts := t.accounts[newId := Account(newId, number, name, 0, user.id)]), Ok(newId))
  }

  /**
   * `searchAccounts`: the owned accounts matching the criteria built from the
   * query, an absent filter taken as the empty string. Paging is not modelled,
   * so the result is the whole matching set.
   */
  function Search(t: Tables, username: string, number: Option<string>, name: Option<string>)
    : Result<set<AccountResponse>, AppException>
  {
    match FindByUsername(t.users, username)
    case None => Err(UserNotFoundException)
    case Some(user) =>
      var criteria := AccountSearchCriteria(user.id, number.GetOr(""), name.GetOr(""));
      Ok(set a | a in FindAll(t.accounts, criteria) :: FromAccount(a))
  }

  /** `updateAccount`: overwrite the name and balance of an owned account. */
  function Update(t: Tables, username: string, id: Id, name: string, balance: int): AccountResult<()> {
    match FindByUsername(t.users, username)
    case None => AccountResult(t, Err(UserNotFoundException))
    case Some(user) =>
      match FindByIdAndUser(t.accounts, id, user.id)
      case None => AccountResult(t, Err(AccountNotFoundException))
      case Some(a) => AccountResult(t.(accounts := t.accounts[id := a.(name := name, balance := balance)]), Ok(()))
  }

  /** Some stored transaction has `id` as source or destination. */
  predicate Referenced(ts: seq<Transaction>, id: Id) {
    exists i :: 0 <= i < |ts| && Touches(ts[i], id)
  }

  /**
   * `deleteAccount`: remove an owned account. The `transaction` table's
   * foreign keys make the database refuse to delete an account that some
   * transaction references, which surfaces as a DataIntegrityViolation.
   */
  function Delete(t: Tables, username: string, id: Id): AccountResult<()> {
    match FindByUsername(t.users, username)
    case None => AccountResult(t, Err(UserNotFoundException))
    case Some(user) =>
      if !ExistsByIdAndUser(t.accounts, id, user.id) then AccountResult(t, Err(AccountNotFoundException))
      else if Referenced(t.transactions, id) then AccountResult(t, Err(DataIntegrityViolationException))
      else AccountResult(t.(accounts := t.accounts - {id}), Ok(()))
  }

  /** `getAccount`: the response view of an owned account. */
  function Get(t: Tables, username: string, id: Id): Result<AccountResponse, AppException> {
    match FindByUsername(t.users, username)
    case None => Err(UserNotFoundException)
    case Some(user) =>
      match FindByIdAndUser(t.accounts, id, user.id)
      case None => Err(AccountNotFoundException)
      case Some(a) => Ok(FromAccount(a))
  }

  // ---------------------------------------------------------------------------
  // Properties

  /** Every operation raises UserNotFound for an unknown caller and leaves the database as it was. */
  lemma UnknownUserChangesNothing(t: Tables, username: string, id: Id, name: string, number: string,
                                  balance: int, newId: Id, numberFilter: Option<string>, nameFilter: Option<string>)
    requires FindByUsername(t.users, username).None?
    ensures Create(t, username, name, number, newId) == AccountResult(t, Err(UserNotFoundException))
    ensures Search(t, username, numberFilter, nameFilter) == Err(UserNotFoundException)
    ensures Update(t, username, id, name, balance) == AccountResult(t, Err(UserNotFoundException))
    ensures Delete(t, username, id) == AccountResult(t, Err(UserNotFoundException))
    ensures Get(t, username, id) == Err(UserNotFoundException)
  {
  }

  /**
   * `createAccount` stores one new account under the returned id: owned by
   * the caller, with the requested name and number and a zero balance; every
   * account that was there before is kept as it was.
   */
  lemma CreateAccountAddsOne(t: Tables, username: string, user: User, name: string, number: string, newId: Id)
    requires FindByUsername(t.users, username) == Some(user)
    requires newId !in t.accounts
    ensures var r := Create(t, username, name, number, newId);
            && r.response == Ok(newId)
            && r.tables.accounts.Keys == t.accounts.Keys + {newId}
            && FindByIdAndUser(r.tables.accounts, newId, user.id) == Some(Account(newId, number, name, 0, user.id))
            && (forall k :: k in t.accounts ==> r.tables.accounts[k] == t.accounts[k])
            && r.tables.users == t.users && r.tables.transactions == t.transactions
  {
  }

  /** A created account is immediately visible to `getAccount`, with balance 0. */
  lemma CreatedAccountIsVisible(t: Tables, username: string, name: string, number: string, newId: Id)
    requires FindByUsername(t.users, username).Some?
    ensures var r := Create(t, username, name, number, newId);
            Get(r.tables, username, newId) == Ok(AccountResponse(newId, number, name, 0))
  {
  }

  /** The search only ever returns accounts of the caller, and only matching ones. */
  lemma SearchOnlyOwned(t: Tables, username: string, user: User, number: Option<string>, name: Option<string>,
                        a: AccountResponse)
    requires FindByUsername(t.users, username) == Some(user)
    requires Search(t, username, number, name).Ok?
    requires a in Search(t, username, number, name).value
    ensures exists k :: && k in t.accounts && t.accounts[k].owner == user.id && FromAccount(t.accounts[k]) == a
                        && ToPredicate(AccountSearchCriteria(user.id, number.GetOr(""), name.GetOr("")), t.accounts[k])
  {
  }

  /**
   * An absent filter defaults to the empty string, which matches everything,
   * so a query that omits either filter lists every account of the caller.
   */
  lemma SearchWithAbsentFilterListsAll(t: Tables, username: string, user: User,
                                       number: Option<string>, name: Option<string>)
    requires FindByUsername(t.users, username) == Some(user)
    requires number.None? || name.None?
    ensures var r := Search(t, username, number, name);
            && r.Ok?
            && forall k :: k in t.accounts && t.accounts[k].owner == user.id ==> FromAccount(t.accounts[k]) in r.value
  {
    var criteria := AccountSearchCriteria(user.id, number.GetOr(""), name.GetOr(""));
    forall k | k in t.accounts && t.accounts[k].owner == user.id
      ensures t.accounts[k] in FindAll(t.accounts, criteria)
    {
      EitherEmptyFilterMatchesOwned(criteria, t.accounts[k]);
    }
  }

  /**
   * With both filters given and free of wildcards, the search lists exactly the
   * caller's accounts whose number or name contains the corresponding filter.
   */
  lemma SearchBySubstring(t: Tables, username: string, user: User, number: string, name: string)
    requires FindByUsername(t.users, username) == Some(user)
    requires NoWildcards(number) && NoWildcards(name)
    ensures var r := Search(t, username, Some(number), Some(name));
            && r.Ok?
            && (forall k :: k in t.accounts && t.accounts[k].owner == user.id &&
                          (Contains(t.accounts[k].number, number) || Contains(t.accounts[k].name, name))
                          ==> FromAccount(t.accounts[k]) in r.value)
            && (forall a :: a in r.value ==>
                  exists k :: && k in t.accounts && t.accounts[k].owner == user.id && FromAccount(t.accounts[k]) == a
                              && (Contains(t.accounts[k].number, number) || Contains(t.accounts[k].name, name)))
  {
    var criteria := AccountSearchCriteria(user.id, number, name);
    forall k | k in t.accounts
      ensures ToPredicate(criteria, t.accounts[k]) <==>
              t.accounts[k].owner == user.id && (Contains(t.accounts[k].number, number) || Contains(t.accounts[k].name, name))
    {
      MatchIsSubstring(criteria, t.accounts[k]);
    }
  }

  /** `updateAccount` on an account the caller does not own raises AccountNotFound and changes nothing. */
  lemma UpdateNotOwned(t: Tables, username: string, user: User, id: Id, name: string, balance: int)
    requires FindByUsername(t.users, username) == Some(user)
    requires !ExistsByIdAndUser(t.accounts, id, user.id)
    ensures Update(t, username, id, name, balance) == AccountResult(t, Err(AccountNotFoundException))
  {
  }

  /**
   * On an owned account, `updateAccount` sets exactly its name and balance:
   * its id, number and owner, every other account and the other tables keep
   * their values.
   */
  lemma UpdateSetsNameAndBalance(t: Tables, username: string, user: User, id: Id, name: string, balance: int)
    requires FindByUsername(t.users, username) == Some(user)
    requires ExistsByIdAndUser(t.accounts, id, user.id)
    ensures var r := Update(t, username, id, name, balance);
            && r.response == Ok(())
            && r.tables.accounts.Keys == t.accounts.Keys
            && r.tables.accounts[id] == Account(t.accounts[id].id, t.accounts[id].number, name, balance, user.id)
            && (forall k :: k in t.accounts && k != id ==> r.tables.accounts[k] == t.accounts[k])
            && r.tables.users == t.users && r.tables.transactions == t.transactions
  {
  }

  /** `deleteAccount` of an account the caller does not own raises AccountNotFound and changes nothing. */
  lemma DeleteNotOwned(t: Tables, username: string, user: User, id: Id)
    requires FindByUsername(t.users, username) == Some(user)
    requires !ExistsByIdAndUser(t.accounts, id, user.id)
    ensures Delete(t, username, id) == AccountResult(t, Err(AccountNotFoundException))
  {
  }

  /** An owned account that no transaction references is removed, and it alone. */
  lemma DeleteRemovesExactly(t: Tables, username: string, user: User, id: Id)
    requires FindByUsername(t.users, username) == Some(user)
    requires ExistsByIdAndUser(t.accounts, id, user.id)
    requires forall i :: 0 <= i < |t.transactions| ==> !Touches(t.transactions[i], id)
    ensures var r := Delete(t, username, id);
            && r.response == Ok(())
            && r.tables.accounts.Keys == t.accounts.Keys - {id}
            && (forall k :: k in r.tables.accounts ==> r.tables.accounts[k] == t.accounts[k])
            && r.tables.users == t.users && r.tables.transactions == t.transactions
  {
  }

  /** An owned account with history cannot be deleted: the store is left as it was. */
  lemma DeleteReferencedFails(t: Tables, username: string, user: User, id: Id, i: nat)
    requires FindByUsername(t.users, username) == Some(user)
    requires ExistsByIdAndUser(t.accounts, id, user.id)
    requires i < |t.transactions| && Touches(t.transactions[i], id)
    ensures Delete(t, username, id) == AccountResult(t, Err(DataIntegrityViolationException))
  {
  }

  /** `getAccount` answers with the owned account's id, number, name and balance, or AccountNotFound. */
  lemma GetAccountOwned(t: Tables, username: string, user: User, id: Id)
    requires FindByUsername(t.users, username) == Some(user)
    ensures var r := Get(t, username, id);
            && (r.Ok? <==> ExistsByIdAndUser(t.accounts, id, user.id))
            && (r.Err? ==> r.error == AccountNotFoundException)
            && (r.Ok? ==> r.value == FromAccount(t.accounts[id]))
            && (r.Ok? && t.Valid() ==> r.value.id == id)
  {
  }

  /** A created account is owned by a stored user, so creating keeps the database consistent. */
  lemma CreateKeepsValid(t: Tables, username: string, name: string, number: string, newId: Id)
    requires t.Valid()
    ensures Create(t, username, name, number, newId).tables.Valid()
  {
    if FindByUsername(t.users, username).Some? {
      FoundUserIsStored(t, username);
    }
  }

  /** Updating changes only a name and a balance, so the database stays consistent. */
  lemma UpdateKeepsValid(t: Tables, username: string, id: Id, name: string, balance: int)
    requires t.Valid()
    ensures Update(t, username, id, name, balance).tables.Valid()
  {
  }

  /** Deleting only succeeds for an unreferenced account, so no transaction loses its account. */
  lemma DeleteKeepsValid(t: Tables, username: string, id: Id)
    requires t.Valid()
    ensures Delete(t, username, id).tables.Valid()
  {
    var d := Delete(t, username, id);
    if d.response.Ok? {
      forall i | 0 <= i < |t.transactions|
        ensures t.transactions[i].from != id && t.transactions[i].to != id
      {
        if Touches(t.transactions[i], id) {
          assert Referenced(t.transactions, id);
        }
      }
    }
  }

  /** The sixteen-digit number: one random digit 0-9 appended at a time. */
  method GenerateAccountNumber() returns (number: string)
    ensures IsAccountNumber(number)
  {
    number := "";
    for i := 0 to ACCOUNT_NUMBER_LENGTH
      invariant |number| == i
      invariant forall j :: 0 <= j < i ==> '0' <= number[j] <= '9'
    {
      var digit :| 0 <= digit < 10;
      number := number + [('0' as int + digit) as char];
    }
  }

  /** The account service over the shared database. */
  class DBAccountService {
    const repos: Repositories

    constructor (repos: Repositories)
      ensures this.repos == repos
    {
      this.repos := repos;
    }

    /** `createAccount(username, request)`; `newId` is the id the database assigns to the saved row. */
    method CreateAccount(username: string, name: string, newId: Id) returns (r: Result<Id, AppException>)
      requires repos.Valid() && newId !in repos.accounts
      modifies repos
      ensures repos.Valid()
      ensures r.Ok? ==> newId in repos.accounts && IsAccountNumber(repos.accounts[newId].number)
      ensures var number := if newId in repos.accounts then repos.accounts[newId].number else "";
              AccountResult(repos.Snapshot(), r) == Create(old(repos.Snapshot()), username, name, number, newId)
    {
      var user := FindByUsername(repos.users, username);
      if user.None? {
        return Err(UserNotFoundException);
      }
      var number := GenerateAccountNumber();
      CreateKeepsValid(repos.Snapshot(), username, name, number, newId);
      var account := Account(newId, number, name, 0, user.value.id);
      repos.accounts := repos.accounts[newId := account];
      r := Ok(newId);
    }

    /** `searchAccounts(username, query, pageable)`, without the paging. */
    method SearchAccounts(username: string, number: Option<string>, name: Option<string>)
      returns (r: Result<set<AccountResponse>, AppException>)
      ensures r == Search(repos.Snapshot(), username, number, name)
    {
      var user := FindByUsername(repos.users, username);
      if user.None? {
        return Err(UserNotFoundException);
      }
      var criteria := AccountSearchCriteria(user.value.id, number.GetOr(""), name.GetOr(""));
      var page := FindAll(repos.accounts, criteria);
      r := Ok(set a | a in page :: FromAccount(a));
    }

    /** `updateAccount(username, accountId, request)`. */
    method UpdateAccount(username: string, id: Id, name: string, balance: int) returns (r: Result<(), AppException>)
      requires repos.Valid()
      modifies repos
      ensures repos.Valid()
      ensures AccountResult(repos.Snapshot(), r) == Update(old(repos.Snapshot()), username, id, name, balance)
    {
      UpdateKeepsValid(repos.Snapshot(), username, id, name, balance);
      var user := FindByUsername(repos.users, username);
      if user.None? {
        return Err(UserNotFoundException);
      }
      var account := FindByIdAndUser(repos.accounts, id, user.value.id);
      if account.None? {
        return Err(AccountNotFoundException);
      }
      var updated := account.value.(name := name);
      updated := updated.(balance := balance);
      repos.accounts := repos.accounts[id := updated];
      r := Ok(());
    }

    /** `deleteAccount(username, accountId)`. */
    method DeleteAccount(username: string, id: Id) returns (r: Result<(), AppException>)
      requires repos.Valid()
      modifies repos
      ensures repos.Valid()
      ensures AccountResult(repos.Snapshot(), r) == Delete(old(repos.Snapshot()), username, id)
    {
      DeleteKeepsValid(repos.Snapshot(), username, id);
      var user := FindByUsername(repos.users, username);
      if user.None? {
        return Err(UserNotFoundException);
      }
      if !ExistsByIdAndUser(repos.accounts, id, user.value.id) {
        return Err(AccountNotFoundException);
      }
      if Referenced(repos.transactions, id) {
        return Err(DataIntegrityViolationException);
      }
      repos.accounts := repos.accounts - {id};
      r := Ok(());
    }

    /** `getAccount(username, accountId)`. */
    method GetAccount(username: string, id: Id) returns (r: Result<AccountResponse, AppException>)
      ensures r == Get(repos.Snapshot(), username, id)
    {
      var user := FindByUsername(repos.users, username);
      if user.None? {
        return Err(UserNotFoundException);
      }
      var account := FindByIdAndUser(repos.accounts, id, user.value.id);
      if account.None? {
        return Err(AccountNotFoundException);
      }
      r := Ok(FromAccount(account.value));
    }
  }
}
