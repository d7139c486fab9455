/**
 * The response records the services return: `AccountResponse`,
 * `TransactionHistoryResponse`, and the unnamed id/status carriers.
 */
module Dto {
  import opened Entities

  datatype AccountResponse = AccountResponse(id: Id, number: string, name: string, balance: int)

  /** `AccountResponse.fromAccount`: a field-for-field copy, without the owner. */
  function FromAccount(a: Account): AccountResponse {
    AccountResponse(a.id, a.number, a.name, a.balance)
  }

  datatype TransactionHistoryResponse = TransactionHistoryResponse(
    id: Id,
    from: Id,
    to: Id,
    amount: int,
    transactionDate: int,
    status: TransactionStatus)

  /** `TransactionHistoryResponse.fromTransaction`: a field-for-field copy. */
  function FromTransaction(t: Transaction): TransactionHistoryResponse {
    TransactionHistoryResponse(t.id, t.from, t.to, t.amount, t.transactionDate, t.status)
  }

  /** The copy loses nothing: two transactions with equal history entries are equal. */
  lemma FromTransactionInjective(s: Transaction, t: Transaction)
    ensures FromTransaction(s) == FromTransaction(t) <==> s == t
  {
  }

  /** `TransferMoneyResponse(status, reason)`. */
  datatype TransferMoneyResponse = TransferMoneyResponse(status: TransactionStatus, reason: string)
}
