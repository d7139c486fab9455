/**
 * The three Spring Data repositories (`UserRepository`, `AccountRepository`,
 * `TransactionRepository`) over one in-memory database. The derived query
 * methods are functions with the set semantics their names promise; the
 * tables themselves are the fields of the class `Repositories`, which the
 * services update in place.
 */
module Repositories {
  import opened Wrappers
  import opened Entities

  /** A snapshot of the database. */
  datatype Tables = Tables(users: seq<User>, accounts: map<Id, Account>, transactions: seq<Transaction>) {

    /**
     * The consistency the schema guarantees:
     * - every account is stored under its own id;
     * - user and transaction ids are primary keys, so no two rows share one;
     * - every account's owner is a stored user (the non-null `user_id` key);
     * - every transaction references two stored accounts (the non-null foreign keys
     *   `from_account_id` and `to_account_id`).
     */
    predicate Valid() {
      && (forall k :: k in accounts ==> accounts[k].id == k)
      && (forall i, j :: 0 <= i < j < |users| ==> users[i].id != users[j].id)
      && (forall i, j :: 0 <= i < j < |transactions| ==> transactions[i].id != transactions[j].id)
      && (forall k :: k in accounts ==> HasUser(accounts[k].owner))
      && (forall i :: 0 <= i < |transactions| ==>
            transactions[i].from in accounts && transactions[i].to in accounts)
    }

    /** Some stored user has the id `id`. */
    predicate HasUser(id: Id) {
      exists i :: 0 <= i < |users| && users[i].id == id
    }

    /** `id` is unused in the user table: the database can generate it for a new row. */
    predicate FreshUserId(id: Id) {
      forall i :: 0 <= i < |users| ==> users[i].id != id
    }

    /** `id` is unused in the transaction table. */
    predicate FreshTransactionId(id: Id) {
      forall i :: 0 <= i < |transactions| ==> transactions[i].id != id
    }
  }

  /** `UserRepository.findByUsername`: the first user row with that username. */
  function FindByUsername(users: seq<User>, username: string): (r: Option<User>)
    ensures r.Some? ==> r.value in users && r.value.username == username
    ensures r.None? <==> forall i :: 0 <= i < |users| ==> users[i].username != username
  {
    if users == [] then None
    else if users[0].username == username then Some(users[0])
    else FindByUsername(users[1..], username)
  }

  /** The user `findByUsername` finds is a stored row, so its id is a stored user id. */
  lemma FoundUserIsStored(t: Tables, username: string)
    requires FindByUsername(t.users, username).Some?
    ensures t.HasUser(FindByUsername(t.users, username).value.id)
  {
    var u := FindByUsername(t.users, username).value;
    var i :| 0 <= i < |t.users| && t.users[i] == u;
  }

  /** `AccountRepository.findByIdAndUser`. */
  function FindByIdAndUser(accounts: map<Id, Account>, id: Id, owner: Id): Option<Account> {
    if id in accounts && accounts[id].owner == owner then Some(accounts[id]) else None
  }

  /** `AccountRepository.existsByIdAndUser`. */
  predicate ExistsByIdAndUser(accounts: map<Id, Account>, id: Id, owner: Id) {
    FindByIdAndUser(accounts, id, owner).Some?
  }

  /** `AccountRepository.findAllByIdInAndUser`: the stored accounts owned by `owner` whose id is listed. */
  function FindAllByIdInAndUser(accounts: map<Id, Account>, ids: seq<Id>, owner: Id): set<Id> {
    set k | k in accounts && k in ids && accounts[k].owner == owner
  }

  /**
   * Two ids, looked up together, come back as two rows exactly when they are
   * different and both stored and owned by `owner`.
   */
  lemma PairLookup(accounts: map<Id, Account>, from: Id, to: Id, owner: Id)
    ensures |FindAllByIdInAndUser(accounts, [from, to], owner)| == 2 <==>
            from != to && ExistsByIdAndUser(accounts, from, owner) && ExistsByIdAndUser(accounts, to, owner)
  {
    var found := FindAllByIdInAndUser(accounts, [from, to], owner);
    var f := if ExistsByIdAndUser(accounts, from, owner) then {from} else {};
    var t := if ExistsByIdAndUser(accounts, to, owner) then {to} else {};
    assert found == f + t;
    if from == to {
      assert f + t == f;
    }
  }

  /** `TransactionRepository.findAllByFromOrTo(account, account)`, in storage order. */
  function FindAllByFromOrTo(ts: seq<Transaction>, account: Id): (r: seq<Transaction>)
    ensures forall t :: t in r <==> t in ts && Touches(t, account)
    ensures |r| <= |ts|
  {
    if ts == [] then []
    else if Touches(ts[0], account) then [ts[0]] + FindAllByFromOrTo(ts[1..], account)
    else FindAllByFromOrTo(ts[1..], account)
  }

  /** Saving one more transaction extends every account's query result by it or by nothing. */
  lemma {:induction false} FindAllByFromOrToAppend(ts: seq<Transaction>, t: Transaction, account: Id)
    ensures FindAllByFromOrTo(ts + [t], account) ==
            FindAllByFromOrTo(ts, account) + (if Touches(t, account) then [t] else [])
  {
    if ts == [] {
      assert [t][1..] == [];
    } else {
      assert (ts + [t])[1..] == ts[1..] + [t];
      FindAllByFromOrToAppend(ts[1..], t, account);
    }
  }

  /** `UserRepository.existsByUsernameOrEmail`. */
  predicate ExistsByUsernameOrEmail(users: seq<User>, username: string, email: string) {
    exists i :: 0 <= i < |users| && (users[i].username == username || users[i].email == email)
  }

  /** The user rows `findByUsernameOrEmail(identifier, identifier)` selects, in storage order. */
  function FindAllByUsernameOrEmail(users: seq<User>, identifier: string): (r: seq<User>)
    ensures forall u :: u in r <==> u in users && (u.username == identifier || u.email == identifier)
    ensures |r| <= |users|
  {
    if users == [] then []
    else if users[0].username == identifier || users[0].email == identifier
    then [users[0]] + FindAllByUsernameOrEmail(users[1..], identifier)
    else FindAllByUsernameOrEmail(users[1..], identifier)
  }

  /** The database the services share; each field is one table. */
  class Repositories {
    var users: seq<User>
    var accounts: map<Id, Account>
    var transactions: seq<Transaction>

    /** An empty database. */
    constructor ()
      ensures Snapshot() == Tables([], map[], [])
    {
      users, accounts, transactions := [], map[], [];
    }

    function Snapshot(): Tables
      reads this
    {
      Tables(users, accounts, transactions)
    }

    predicate Valid()
      reads this
    {
      Snapshot().Valid()
    }
  }
}
