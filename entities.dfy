/**
 * The persisted entities of the banking backend (`entity/User.java`,
 * `entity/Account.java`, `entity/Transaction.java`).
 *
 * Identifiers (UUIDs in the source) are natural numbers; references between
 * entities (`Account.user`, `Transaction.from`, `Transaction.to`) are stored as
 * the identifier of the referenced row. Money is an integer count of
 * micro-units, since both money columns have scale 6. Timestamps are opaque
 * integers supplied by the caller.
 */
module Entities {

  type Id = nat

  /** A row of `app_user`. `password` holds the encoded password. */
  datatype User = User(id: Id, username: string, password: string, email: string)

  /** A row of `account`; `owner` is the id of the owning user. */
  datatype Account = Account(id: Id, number: string, name: string, balance: int, owner: Id)

  datatype TransactionStatus = Success | Failed

  /** A row of `transaction`, one per transfer attempt. */
  datatype Transaction = Transaction(
    id: Id,
    from: Id,
    to: Id,
    amount: int,
    transactionDate: int,
    status: TransactionStatus)

  /** True when the transaction has `account` as its source or its destination. */
  predicate Touches(t: Transaction, account: Id) {
    t.from == account || t.to == account
  }
}
