# Savings-account ledger rules of FinancialTracker's `AccountService`

This project models the business rules of `AccountService`, the FinancialTracker
service through which a user opens and closes savings accounts, records deposits
and withdrawals, transfers between their own accounts, and edits or deletes past
transactions. It also proves properties of the model. The service's database is
replaced by an in-memory store held in the fields of the class
`Services.AccountService`:

- `accounts`: a map from account id to `Account(id, userId, name, balance)`;
- `transactions`: the table of `Transaction(id, savingsAccountId, transactionType,
  description, amount, date, newBalance)` rows in creation order, identified by
  (account id, transaction id);
- `opening`: a ghost map holding each account's balance when it was opened.

`Valid()` is the ledger invariant (`Ledger.Consistent`):

- every account is stored under its own id;
- transaction keys are unique;
- every account's balance equals its opening balance plus the signed effect
  (`Models.Effect`) of its retained transactions.

Every state-changing method keeps it. Money is integer cents. Dates are integer
day numbers. Transaction types are kept as the strings the rows store, because
the service branches on those strings.

Modules:

- `Wrappers` (wrappers.dfy): the `Option` and `Result` values that stand for the
  service's exceptions.
- `Models` (models.dfy): accounts and transactions, and the smallest meaning of the
  model-class methods the service calls. The model classes themselves are not part
  of this model.
- `Ledger` (ledger.dfy): the table queries (`IndexOf`, `InRange`), the net effect
  of an account's rows, the sums by type, and the lemmas that every store update
  keeps the ledger invariant.
- `Services` (account_service.dfy): the error kinds, the pure decisions (delete
  reversal, edit rebuild, transfer legs) and the class `AccountService`.

The caller's user id, the outcome of the credential re-check, fresh identifiers and
the affected-row counts the store reports are all parameters.

The model follows the code where the code departs from the design:

- The edit guard compares the type against the literal `"Transfer"` only. So
  TransferIn and TransferOut legs can be edited (`EditedTransaction`).
- The TransferIn and TransferOut arms of the delete switch can never be reached,
  because the guard before them refuses those types (`ReverseTransaction`).
- Account lookups are scoped to the caller. So the transfer's "same owner" check
  can never fire. A transfer between accounts of different owners is refused by the
  lookup instead, with `InvalidAccountId`.
- When closing, a store failure is reported with the same error as a non-zero
  balance (`BalanceMustBeZero`).
- A transfer sends an empty object to the store, so nothing about it is stored (see
  Findings).

## Model

| member | source | states |
|---|---|---|
| `Models.StringToTransactionType` | Services/AccountService.cs:144 | a type name parses exactly when it is one of the four type names; the parsed type's name is the input, and every type's name parses back to that type |
| `Models.CreateNewTransaction` | Services/AccountService.cs:86-87 | a new transaction keeps its id, type, description, amount and date and belongs to the account; the account moves by the transaction's signed effect, and the resulting balance is stamped on the transaction |
| `Ledger.IndexOf` | Services/AccountService.cs:228-234 | the transaction lookup finds the first row with the (account, transaction) key, and fails exactly when no row has that key |
| `Ledger.RemoveAt` | Services/AccountService.cs:180-182 | deleting a row keeps every other row in order |
| `Ledger.RemoveAtKeepsUniqueKeys` | Services/AccountService.cs:180-182 | deleting a row keeps transaction keys unique |
| `Ledger.RemoveAtDropsKey` | Services/AccountService.cs:180-182 | after a row is deleted, no row carries its key |
| `Ledger.NetRemoveAt` | Services/AccountService.cs:166-182 | deleting a row takes exactly its own effect out of its account's net, and leaves every other account's net unchanged |
| `Ledger.NetReplace` | Services/AccountService.cs:148-153 | replacing a row by one with the same account and effect leaves every account's net unchanged |
| `Ledger.NetAppend` | Services/AccountService.cs:89-90 | appending a row adds its effect to its own account's net and to no other account's |
| `Ledger.NetOfAbsent` | Services/AccountService.cs:63-64 | an account with no rows has a net of zero |
| `Ledger.RemovePreservesConsistency` | Services/AccountService.cs:166-182 | removing a row and subtracting its effect from its account keeps the ledger invariant |
| `Ledger.AppendPreservesConsistency` | Services/AccountService.cs:86-90 | appending a row with a fresh key and adding its effect to its account keeps the ledger invariant |
| `Ledger.ReplacePreservesConsistency` | Services/AccountService.cs:144-153 | replacing a row by one with the same key and effect keeps the ledger invariant, with no balance touched |
| `Ledger.TransferPreservesConsistency` | Services/AccountService.cs:103-113 | storing a TransferOut and a TransferIn leg of equal amount, debiting one account and crediting the other, keeps the ledger invariant, even when both legs are on one account |
| `Ledger.InRange` | Services/AccountService.cs:190-192 | the range query returns exactly the rows of the account dated within [start, end], each as many times as it occurs in the table and no other row |
| `Ledger.InRangeConcat` | Services/AccountService.cs:190-192 | the range query keeps table order: on a concatenation it returns the first part's rows followed by the second part's |
| `Ledger.AmountOfTypeAppend` | Services/AccountService.cs:196-209 | one more row adds its amount to the total of its own type only |
| `Ledger.EmptyRangeSums` | Services/AccountService.cs:194 | an empty list yields (0, 0, 0, 0) |
| `Ledger.UnmappedTypeIgnored` | Services/AccountService.cs:198-208 | a row whose type is none of the four contributes to no sum, wherever it stands in the list |
| `Ledger.NetFromSums` | Services/AccountService.cs:194-211 | for one account's rows, the balance change they made is deposits minus withdrawals plus transfers in minus transfers out |
| `Services.ReverseTransaction` | Services/AccountService.cs:163-178 | deleting is refused exactly for TransferIn and TransferOut; otherwise the account loses the transaction's effect and nothing else: a Deposit lowers the balance by its amount, a Withdrawal raises it by its amount, and an unknown type leaves it as it was; the deleted record carries the post-reversal balance |
| `Services.DeleteUndoesAdd` | Services/AccountService.cs:166-178 | deleting a deposit or withdrawal right after creating it restores the account exactly, and the record carries the restored balance |
| `Services.EditedTransaction` | Services/AccountService.cs:141-146 | an edit is refused with TransferNotEditable for the type name "Transfer" and succeeds for every parseable type, the transfer legs included; the result equals the original with only description and date replaced |
| `Services.TransferLegs` | Services/AccountService.cs:103-107 | the TransferOut leg comes first and the TransferIn leg second; both carry the requested amount, description and date; their effects are minus and plus the amount; each leg's balance is its own account's balance after it |
| `Services.TransferResponseDrifts` | Services/AccountService.cs:110-116 | with a non-zero amount, the TransferOut leg reports a balance other than the source account's balance, and that account's balance is all the store still holds |
| `Services.AccountService.GetSavingsAccount` | Services/AccountService.cs:41-49 | succeeds exactly when the account exists and belongs to the caller, and then returns the stored account; otherwise fails with InvalidAccountId |
| `Services.AccountService.GetSavingsAccounts` | Services/AccountService.cs:51-58 | fails with NoSavingsAccounts exactly when the caller owns no account; otherwise returns exactly the caller's accounts |
| `Services.AccountService.GetTransaction` | Services/AccountService.cs:228-235 | fails with InvalidTransactionId exactly when no row has the key; otherwise returns the stored row with that key |
| `Services.AccountService.OpenSavingsAccount` | Services/AccountService.cs:60-66 | the new account under a fresh id belongs to the caller, holds the initial balance and is the only store change; its opening balance is recorded as that initial balance and no other opening balance changes, so the ledger invariant is kept |
| `Services.AccountService.CloseSavingsAccount` | Services/AccountService.cs:68-80 | checks credentials, then ownership, then a zero balance, with errors in that order; a store failure is also reported as BalanceMustBeZero; when all checks pass but the store reports a negative count, fails with BalanceMustBeZero; succeeds exactly when all checks pass and the store reports a non-negative count, and then returns the account and removes it together with its opening balance; on failure nothing changes |
| `Services.AccountService.AddTransaction` | Services/AccountService.cs:82-93 | on one of the caller's accounts, the new row is appended and the account's stored balance becomes the balance stamped on the row; opening balances are untouched and the ledger invariant is kept |
| `Services.AccountService.TransferToAccount` | Services/AccountService.cs:95-117 | as written: succeeds exactly when both accounts are the caller's and the store count is non-negative; owners that differ always lead to failure; returns the TransferOut and TransferIn legs; the store is never changed |
| `Services.AccountService.TransferToAccountPersisted` | Services/AccountService.cs:95-117 | corrected: same outcomes and errors as the as-written transfer, but a success stores both legs and moves both balances in one step; the legs are stamped in order, so the TransferOut leg carries the source balance after the debit and the TransferIn leg the receiving account's stored balance after the credit; between two different accounts each leg's balance is its account's stored balance, and a transfer from an account to itself leaves the balance unchanged with the TransferIn leg carrying it; a failure changes nothing; opening balances are untouched and the ledger invariant is kept |
| `Services.AccountService.CommitTransfer` | Services/AccountService.cs:112-113 | the corrected transfer's store write: both legs are appended, the source account is debited and then the receiving account credited; opening balances are untouched, so the ledger invariant holds of the account balances themselves |
| `Services.AccountService.ChangeAccountName` | Services/AccountService.cs:127-134 | on one of the caller's accounts only the name changes; balances, opening balances and transactions are untouched |
| `Services.AccountService.EditTransaction` | Services/AccountService.cs:136-156 | fails with InvalidAccountId or InvalidTransactionId when a lookup fails; otherwise its outcome is the edit rebuild, and on success the stored row becomes exactly the returned record; accounts and opening balances are untouched and the ledger invariant is kept |
| `Services.AccountService.DeleteTransaction` | Services/AccountService.cs:158-185 | fails on a failed lookup or a transfer leg, changing nothing; otherwise the account's stored balance becomes the post-reversal balance, the row is removed and can no longer be found, and the returned record carries that balance; opening balances are untouched and the ledger invariant is kept |
| `Services.AccountService.GetTransactionSumsFromRange` | Services/AccountService.cs:187-212 | for one of the caller's accounts, each of the four totals equals the total amount of the in-range rows of that type; otherwise fails with InvalidAccountId |
| `Services.TotalsByType` | Services/AccountService.cs:194-211 | the summing loop yields, for each of the four types, the total amount of the rows of that type, skipping rows of any other type |

## Left out

- The stored procedures' SQL is not part of this model. Each one is given the smallest effect its call needs:
  - GetSavingsAccount selects by account id and owner.
  - DeleteSavingsAccount removes the account row only. The closed account's transaction rows stay.
  - A negative count from DeleteSavingsAccount or TransferToAccount leaves the store unchanged.
  - AddTransaction inserts the row and stores the stamped balance.
  - EditTransaction rewrites description and date.
  - DeleteTransaction removes the row and stores the new balance.
  - GetTransactionsInRange returns the account's rows dated from start to end inclusive, in table order.
- The model classes `Account` and `Transaction` (Deposit, Withdraw, ChangeName, CreateNew, CreateNewTransaction, CreateExistingTransaction, SetBalance, StringToTransactionType) are not part of this model. They are given only the meaning their call sites need:
  - Deposit adds and Withdraw subtracts, with no check on the amount and no overdraft guard.
  - ChangeName replaces the name, with no check on it.
  - CreateNew does not check the initial balance.
  - SetBalance copies the account's balance.
  - CreateNewTransaction applies the transaction to the account, then stamps the resulting balance on it.
  - StringToTransactionType rejects names other than the four types; the model reports this as UnknownTransactionType.
- GetAccountTransactions (paging, Services/AccountService.cs:119-125) is a pass-through query with no rule of its own.
- The commented-out ConvertToTransfer is not modelled: it is dead code.
- The credential check (`VerifyCredentialsAsync`) is a boolean parameter. The caller's id from the session claims is a parameter. Fresh Guids for new ids are parameters, required not to be in use.
- `decimal` money becomes unbounded integer cents. Its 28-digit range and overflow are not modelled. `DateTime` becomes an integer day number.
- The running balance stamped on the other rows is not tracked. The ledger invariant constrains account balances only. After a row that is not its account's last is deleted (Services/AccountService.cs:178-182), the later rows of that account keep the `newBalance` they were stamped with, in the model and, as far as the service's own code shows, in the store; whether the DeleteTransaction procedure rewrites them is not part of this model.
- GetSavingsAccounts returns a set of accounts, so the database's row order is not modelled.
- Exceptions become `Error` values, one per message. The message text is not modelled.
- async/await, connections, and concurrency between requests are not modelled. Each operation runs alone on the store.

## Findings

| source | as written | input that shows it | evidently intended | confidence | as-written member | corrected member |
|---|---|---|---|---|---|---|
| Services/AccountService.cs:109-116 | the TransferToAccount procedure receives an empty object, so neither leg nor any balance change reaches the store, yet the response reports both legs with moved balances | the caller owns A (balance 100) and B (balance 0) and transfers 50 from A to B, and the store reports 0 rows: the response's TransferOut leg says 50, while A still holds 100 and no leg is stored | both legs are stored and both balances move in one commit, the legs stamped in order, so each leg's balance is its account's balance right after that leg is applied | not executed; high, as the object passed carries no field | Services.AccountService.TransferToAccount, Services.TransferResponseDrifts | Services.AccountService.TransferToAccountPersisted |
