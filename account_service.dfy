/**
 * The savings-account service: the business rules of the account service
 * over an in-memory store that stands for the database its stored procedures
 * read and write. The caller's user id, the credential re-check, fresh
 * identifiers and the affected-row counts the store reports are parameters.
 */
module Services {
  import opened Wrappers
  import opened Models
  import opened Ledger

  /** The failures the service raises, one per exception message. */
  datatype Error =
    | InvalidAccountId        // "The provided account id is invalid."
    | NoSavingsAccounts       // "Cannot find savings accounts"
    | BalanceMustBeZero       // "Savings account balance must be 0.00"
    | InvalidCredentials      // raised by the credential re-check before closing
    | DifferentOwners         // "Accounts used in transfer must be the same."
    | TransferFailed          // "Cannot complete transfer"
    | InvalidTransactionId    // "The provided transaction id is invalid."
    | TransferNotEditable     // "Transactions of type transfer are not editable."
    | TransferNotDeletable    // "Transaction deleted cannot be a transfer."
    | UnknownTransactionType  // a stored type name that does not parse

  /** The only type name the edit guard compares against. */
  const TransferTypeName: string := "Transfer"

  predicate IsTransferLeg(t: Transaction) {
    t.transactionType == "TransferIn" || t.transactionType == "TransferOut"
  }

  // ---------------------------------------------------------------------------
  // Pure decisions

  /**
   * What deleting `t` does to its loaded account: transfer legs are refused;
   * otherwise the transaction's effect is taken back out of the balance and
   * the resulting balance is stamped on the deleted record.
   */
  function ReverseTransaction(account: Account, t: Transaction): (r: Result<(Account, Transaction), Error>)
    ensures r.Failure? <==> IsTransferLeg(t)
    ensures r.Failure? ==> r.error == TransferNotDeletable
    ensures r.Success? ==> r.value.0 == account.(balance := r.value.0.balance)
    ensures r.Success? ==> r.value.1 == t.(newBalance := r.value.0.balance)
    ensures r.Success? && t.transactionType == "Deposit" ==> r.value.0.balance == account.balance - t.amount
    ensures r.Success? && t.transactionType == "Withdrawal" ==> r.value.0.balance == account.balance + t.amount
    ensures r.Success? && StringToTransactionType(t.transactionType).None? ==> r.value.0 == account
  {
    if IsTransferLeg(t) then Failure(TransferNotDeletable)
    else
      var reversed := account.(balance := account.balance - Effect(t));
      Success((reversed, t.SetBalance(reversed)))
  }

  /**
   * Deleting a deposit or withdrawal right after adding it restores the
   * account exactly, and stamps the restored balance on the record.
   */
  lemma DeleteUndoesAdd(account: Account, id: string, ty: TransactionType, description: string,
                        amount: int, date: int)
    requires ty == Deposit || ty == Withdrawal
    ensures var (t, added) := CreateNewTransaction(id, ty, description, amount, date, account);
      ReverseTransaction(added, t) == Success((account, t.(newBalance := account.balance)))
  {
  }

  /**
   * The rebuilt record an edit produces: refused only for the type name
   * "Transfer" (and for names that do not parse); otherwise the same record
   * with the new description and date.
   */
  function EditedTransaction(initial: Transaction, description: string, date: int): (r: Result<Transaction, Error>)
    ensures initial.transactionType == TransferTypeName ==> r == Failure(TransferNotEditable)
    ensures r.Success? <==> StringToTransactionType(initial.transactionType).Some?
    ensures IsTransferLeg(initial) ==> r.Success?
    ensures r.Success? ==> r.value == initial.(description := description, date := date)
  {
    if initial.transactionType == TransferTypeName then Failure(TransferNotEditable)
    else match StringToTransactionType(initial.transactionType)
      case None => Failure(UnknownTransactionType)
      case Some(ty) =>
        Success(CreateExistingTransaction(initial.id, initial.savingsAccountId, ty, description,
                                          initial.amount, initial.newBalance, date))
  }

  /**
   * The two legs of a transfer, TransferOut first: both carry the requested
   * amount, their effects cancel, and each is stamped with the balance its own
   * account would have after it.
   */
  function TransferLegs(outAccount: Account, inAccount: Account, amount: int, date: int,
                        description: string, outId: string, inId: string): (r: (Transaction, Transaction))
    ensures r.0.transactionType == "TransferOut" && r.1.transactionType == "TransferIn"
    ensures r.0.savingsAccountId == outAccount.id && r.1.savingsAccountId == inAccount.id
    ensures r.0.id == outId && r.1.id == inId
    ensures r.0.amount == amount && r.1.amount == amount
    ensures r.0.description == description && r.1.description == description
    ensures r.0.date == date && r.1.date == date
    ensures Effect(r.0) == -amount && Effect(r.1) == amount
    ensures r.0.newBalance == outAccount.balance - amount && r.1.newBalance == inAccount.balance + amount
  {
    var (inLeg, _) := CreateNewTransaction(inId, TransferIn, description, amount, date, inAccount);
    var (outLeg, _) := CreateNewTransaction(outId, TransferOut, description, amount, date, outAccount);
    (outLeg, inLeg)
  }

  /**
   * The response of a transfer that reaches no store disagrees with the
   * store: the source account still holds its old balance, while the
   * TransferOut leg reports a different one.
   */
  lemma TransferResponseDrifts(outAccount: Account, inAccount: Account, amount: int, date: int,
                               description: string, outId: string, inId: string)
    requires amount != 0
    ensures TransferLegs(outAccount, inAccount, amount, date, description, outId, inId).0.newBalance
            != outAccount.balance
  {
  }

  // ---------------------------------------------------------------------------
  // The service over its store

  class AccountService {
    /** Savings accounts by id. */
    var accounts: map<string, Account>
    /** Transaction rows in creation order. */
    var transactions: seq<Transaction>
    /** Each account's balance when it was opened. */
    ghost var opening: map<string, int>

    /**
     * Store consistency: accounts are stored under their own id, transaction
     * keys are unique, and every account's balance is its opening balance plus
     * the net effect of its retained transactions.
     */
    ghost predicate Valid()
      reads this
    {
      Consistent(accounts, transactions, opening)
    }

    /** The account exists and belongs to the caller. */
    predicate Owns(caller: string, accountId: string)
      reads this
    {
      accountId in accounts && accounts[accountId].userId == caller
    }

    constructor ()
      ensures Valid()
      ensures accounts == map[] && transactions == []
    {
      accounts := map[];
      transactions := [];
      opening := map[];
    }

    /** Loads one of the caller's accounts. */
    method GetSavingsAccount(caller: string, accountId: string) returns (r: Result<Account, Error>)
      ensures r.Success? <==> Owns(caller, accountId)
      ensures r.Success? ==> r.value == accounts[accountId]
      ensures r.Failure? ==> r.error == InvalidAccountId
    {
      if accountId in accounts && accounts[accountId].userId == caller {
        r := Success(accounts[accountId]);
      } else {
        r := Failure(InvalidAccountId);
      }
    }

    /** Loads all of the caller's accounts; having none is a failure. */
    method GetSavingsAccounts(caller: string) returns (r: Result<set<Account>, Error>)
      ensures r.Success? <==> exists id :: Owns(caller, id)
      ensures r.Success? ==> forall a :: a in r.value <==> a in accounts.Values && a.userId == caller
      ensures r.Failure? ==> r.error == NoSavingsAccounts
    {
      var owned := set id | id in accounts && accounts[id].userId == caller :: accounts[id];
      forall id | Owns(caller, id)
        ensures accounts[id] in owned
      {
      }
      if owned == {} {
        r := Failure(NoSavingsAccounts);
      } else {
        var a :| a in owned;
        var id :| id in accounts && accounts[id].userId == caller && accounts[id] == a;
        assert Owns(caller, id);
        r := Success(owned);
      }
    }

    /** Loads the transaction with the given key. */
    method GetTransaction(accountId: string, transactionId: string) returns (r: Result<Transaction, Error>)
      ensures r.Success? <==> IndexOf(transactions, accountId, transactionId).Some?
      ensures r.Success? ==> r.value == transactions[IndexOf(transactions, accountId, transactionId).value]
      ensures r.Success? ==> HasKey(r.value, accountId, transactionId)
      ensures r.Failure? ==> r.error == InvalidTransactionId
    {
      match IndexOf(transactions, accountId, transactionId)
      case Some(i) => r := Success(transactions[i]);
      case None => r := Failure(InvalidTransactionId);
    }

    /** Opens a new account for the caller under a fresh id. */
    method OpenSavingsAccount(caller: string, id: string, name: string, initialBalance: int)
      returns (account: Account)
      requires Valid()
      requires id !in accounts
      requires forall k :: 0 <= k < |transactions| ==> transactions[k].savingsAccountId != id
      modifies this
      ensures Valid()
      ensures account == Account(id, caller, name, initialBalance)
      ensures accounts == old(accounts)[id := account]
      ensures transactions == old(transactions)
      ensures opening == old(opening)[id := initialBalance]
    {
      account := CreateNew(id, caller, name, initialBalance);
      NetOfAbsent(transactions, id);
      accounts := accounts[id := account];
      opening := opening[id := initialBalance];
    }

    /**
     * Closes one of the caller's accounts. The credential re-check comes first;
     * the balance must be zero; the store's affected-row count decides whether
     * the deletion went through.
     */
    method CloseSavingsAccount(caller: string, accountId: string, credentialsVerified: bool,
                               deleteResult: int) returns (r: Result<Account, Error>)
      requires Valid()
      modifies this
      ensures Valid()
      ensures r.Success? <==>
        credentialsVerified && old(Owns(caller, accountId)) && old(accounts)[accountId].balance == 0
        && deleteResult >= 0
      ensures !credentialsVerified ==> r == Failure(InvalidCredentials)
      ensures credentialsVerified && !old(Owns(caller, accountId)) ==> r == Failure(InvalidAccountId)
      ensures credentialsVerified && old(Owns(caller, accountId)) && old(accounts)[accountId].balance != 0
        ==> r == Failure(BalanceMustBeZero)
      ensures deleteResult < 0 ==> r.Failure?
      ensures r.Failure? ==> r.error != BalanceMustBeZero || old(Owns(caller, accountId))
      ensures (credentialsVerified && old(Owns(caller, accountId)) && old(accounts)[accountId].balance == 0
               && deleteResult < 0) ==> r == Failure(BalanceMustBeZero)
      ensures r.Success? ==> r.value == old(accounts)[accountId] && accounts == old(accounts) - {accountId}
      ensures r.Failure? ==> accounts == old(accounts)
      ensures r.Success? ==> opening == old(opening) - {accountId}
      ensures r.Failure? ==> opening == old(opening)
      ensures transactions == old(transactions)
    {
      if !credentialsVerified {
        return Failure(InvalidCredentials);
      }
      var loaded := GetSavingsAccount(caller, accountId);
      if loaded.Failure? {
        return Failure(loaded.error);
      }
      var account := loaded.value;
      if account.balance != 0 {
        return Failure(BalanceMustBeZero);
      }
      if deleteResult < 0 {
        // the message is the balance message, as the service raises it
        return Failure(BalanceMustBeZero);
      }
      accounts := accounts - {account.id};
      opening := opening - {account.id};
      r := Success(account);
    }

    /**
     * Records a new deposit, withdrawal or transfer leg on one of the caller's
     * accounts under a fresh transaction id; the account's stored balance moves
     * to the balance stamped on the transaction.
     */
    method AddTransaction(caller: string, accountId: string, transactionId: string, ty: TransactionType,
                          description: string, amount: int, date: int)
      returns (r: Result<(Transaction, Account), Error>)
      requires Valid()
      requires forall k :: 0 <= k < |transactions| ==> transactions[k].id != transactionId
      modifies this
      ensures Valid()
      ensures r.Success? <==> old(Owns(caller, accountId))
      ensures r.Failure? ==>
        r.error == InvalidAccountId && accounts == old(accounts) && transactions == old(transactions)
      ensures r.Success? ==>
        && r.value == CreateNewTransaction(transactionId, ty, description, amount, date, old(accounts)[accountId])
        && transactions == old(transactions) + [r.value.0]
        && accounts == old(accounts)[accountId := r.value.1]
        && r.value.1.balance == r.value.0.newBalance
      ensures opening == old(opening)
    {
      var loaded := GetSavingsAccount(caller, accountId);
      if loaded.Failure? {
        return Failure(loaded.error);
      }
      var (transaction, account) := CreateNewTransaction(transactionId, ty, description, amount, date, loaded.value);
      // the AddTransaction procedure: insert the row, store the new balance
      AppendPreservesConsistency(accounts, transactions, opening, transaction);
      transactions := transactions + [transaction];
      accounts := accounts[account.id := account];
      r := Success((transaction, account));
    }

    /**
     * Transfers between two of the caller's accounts, as written: the legs are
     * built but nothing reaches the store, whatever count it reports.
     */
    method TransferToAccount(caller: string, accountId: string, receiverAccountId: string, amount: int,
                             date: int, description: string, outId: string, inId: string,
                             transferResult: int) returns (r: Result<(Transaction, Transaction), Error>)
      requires Valid()
      ensures r.Success? <==> Owns(caller, receiverAccountId) && Owns(caller, accountId) && transferResult >= 0
      ensures r.Failure? ==> r.error == (if Owns(caller, receiverAccountId) && Owns(caller, accountId)
                                         then TransferFailed else InvalidAccountId)
      ensures (accountId in accounts && receiverAccountId in accounts
               && accounts[accountId].userId != accounts[receiverAccountId].userId) ==> r.Failure?
      ensures r.Success? ==> r.value == TransferLegs(accounts[accountId], accounts[receiverAccountId],
                                                    amount, date, description, outId, inId)
    {
      var transferIn := GetSavingsAccount(caller, receiverAccountId);
      if transferIn.Failure? {
        return Failure(transferIn.error);
      }
      var transferOut := GetSavingsAccount(caller, accountId);
      if transferOut.Failure? {
        return Failure(transferOut.error);
      }
      if transferIn.value.userId != transferOut.value.userId {
        return Failure(DifferentOwners);
      }
      var legs := TransferLegs(transferOut.value, transferIn.value, amount, date, description, outId, inId);
      if transferResult < 0 {
        return Failure(TransferFailed);
      }
      r := Success(legs);
    }

    /**
     * Transfers between two of the caller's accounts, committing both legs:
     * the legs are appended, the source account is debited and the receiving
     * account credited, all or nothing.
     */
    method TransferToAccountPersisted(caller: string, accountId: string, receiverAccountId: string,
                                      amount: int, date: int, description: string, outId: string,
                                      inId: string, transferResult: int)
      returns (r: Result<(Transaction, Transaction), Error>)
      requires Valid()
      requires outId != inId
      requires forall k :: 0 <= k < |transactions| ==> transactions[k].id != outId && transactions[k].id != inId
      modifies this
      ensures Valid()
      ensures r.Success? <==> old(Owns(caller, receiverAccountId)) && old(Owns(caller, accountId)) && transferResult >= 0
      ensures r.Failure? ==> r.error == (if old(Owns(caller, receiverAccountId)) && old(Owns(caller, accountId))
                                         then TransferFailed else InvalidAccountId)
      ensures r.Failure? ==> accounts == old(accounts) && transactions == old(transactions)
      ensures r.Success? ==>
        var debited := old(accounts)[accountId := old(accounts)[accountId].Withdraw(amount)];
        && r.value == TransferLegs(old(accounts)[accountId], debited[receiverAccountId],
                                   amount, date, description, outId, inId)
        && transactions == old(transactions) + [r.value.0, r.value.1]
        && accounts == debited[receiverAccountId := debited[receiverAccountId].Deposit(amount)]
      ensures r.Success? ==>
        && r.value.0.newBalance == old(accounts)[accountId].balance - amount
        && accounts[receiverAccountId].balance == r.value.1.newBalance
      ensures r.Success? && accountId != receiverAccountId ==> accounts[accountId].balance == r.value.0.newBalance
      ensures r.Success? && accountId == receiverAccountId ==> accounts == old(accounts)
      ensures opening == old(opening)
    {
      var transferIn := GetSavingsAccount(caller, receiverAccountId);
      if transferIn.Failure? {
        return Failure(transferIn.error);
      }
      var transferOut := GetSavingsAccount(caller, accountId);
      if transferOut.Failure? {
        return Failure(transferOut.error);
      }
      if transferIn.value.userId != transferOut.value.userId {
        return Failure(DifferentOwners);
      }
      // the receiving leg is stamped after the debit, so a transfer from an
      // account to itself sees the debited balance
      var receiver := if receiverAccountId == accountId then transferOut.value.Withdraw(amount)
                      else transferIn.value;
      var legs := TransferLegs(transferOut.value, receiver, amount, date, description, outId, inId);
      if transferResult < 0 {
        return Failure(TransferFailed);
      }
      CommitTransfer(accountId, receiverAccountId, amount, legs.0, legs.1);
      if accountId == receiverAccountId {
        assert accounts[accountId] == old(accounts)[accountId];
      }
      r := Success(legs);
    }

    /**
     * The store side of a committed transfer: both legs are appended, the
     * source account is debited, then the receiving account is credited.
     */
    method CommitTransfer(accountId: string, receiverAccountId: string, amount: int,
                          outLeg: Transaction, inLeg: Transaction)
      requires Valid()
      requires accountId in accounts && receiverAccountId in accounts
      requires outLeg.savingsAccountId == accountId && inLeg.savingsAccountId == receiverAccountId
      requires Effect(outLeg) == -amount && Effect(inLeg) == amount
      requires outLeg.id != inLeg.id
      requires forall k :: 0 <= k < |transactions| ==>
        transactions[k].id != outLeg.id && transactions[k].id != inLeg.id
      modifies this
      ensures Valid()
      ensures transactions == old(transactions) + [outLeg, inLeg]
      ensures var debited := old(accounts)[accountId := old(accounts)[accountId].Withdraw(amount)];
        accounts == debited[receiverAccountId := debited[receiverAccountId].Deposit(amount)]
      ensures opening == old(opening)
    {
      TransferPreservesConsistency(accounts, transactions, opening, amount, outLeg, inLeg);
      transactions := transactions + [outLeg, inLeg];
      accounts := accounts[accountId := accounts[accountId].Withdraw(amount)];
      accounts := accounts[receiverAccountId := accounts[receiverAccountId].Deposit(amount)];
    }

    /** Renames one of the caller's accounts; nothing but the name changes. */
    method ChangeAccountName(caller: string, accountId: string, name: string) returns (r: Result<Account, Error>)
      requires Valid()
      modifies this
      ensures Valid()
      ensures r.Success? <==> old(Owns(caller, accountId))
      ensures r.Failure? ==> r.error == InvalidAccountId && accounts == old(accounts)
      ensures r.Success? ==>
        r.value == old(accounts)[accountId].(name := name) && accounts == old(accounts)[accountId := r.value]
      ensures transactions == old(transactions)
      ensures opening == old(opening)
    {
      var loaded := GetSavingsAccount(caller, accountId);
      if loaded.Failure? {
        return Failure(loaded.error);
      }
      var account := loaded.value.ChangeName(name);
      // the UpdateAccountName procedure
      accounts := accounts[accountId := accounts[accountId].(name := name)];
      r := Success(account);
    }

    /**
     * Rewrites the description and date of one of the caller's transactions;
     * the stored row and the returned record are the same value.
     */
    method EditTransaction(caller: string, accountId: string, transactionId: string, description: string,
                           date: int) returns (r: Result<Transaction, Error>)
      requires Valid()
      modifies this
      ensures Valid()
      ensures !old(Owns(caller, accountId)) ==> r == Failure(InvalidAccountId)
      ensures old(Owns(caller, accountId)) && old(IndexOf(transactions, accountId, transactionId)).None?
        ==> r == Failure(InvalidTransactionId)
      ensures old(Owns(caller, accountId)) && old(IndexOf(transactions, accountId, transactionId)).Some? ==>
        r == EditedTransaction(old(transactions)[old(IndexOf(transactions, accountId, transactionId)).value],
                               description, date)
      ensures r.Success? ==>
        transactions == old(transactions)[old(IndexOf(transactions, accountId, transactionId)).value := r.value]
      ensures r.Failure? ==> transactions == old(transactions)
      ensures accounts == old(accounts)
      ensures opening == old(opening)
    {
      var loaded := GetSavingsAccount(caller, accountId);
      if loaded.Failure? {
        return Failure(loaded.error);
      }
      var account := loaded.value;
      var found := GetTransaction(account.id, transactionId);
      if found.Failure? {
        return Failure(found.error);
      }
      var initial := found.value;
      r := EditedTransaction(initial, description, date);
      if r.Success? {
        // the EditTransaction procedure: update description and date of the row
        var i := IndexOf(transactions, initial.savingsAccountId, initial.id).value;
        ReplacePreservesConsistency(accounts, transactions, opening, i, r.value);
        transactions := transactions[i := transactions[i].(description := description, date := date)];
      }
    }

    /**
     * Deletes one of the caller's transactions: transfer legs are refused;
     * otherwise its effect is reversed on the account, the new balance is
     * stamped on the record, and the row goes away with the balance stored.
     */
    method DeleteTransaction(caller: string, accountId: string, transactionId: string)
      returns (r: Result<Transaction, Error>)
      requires Valid()
      modifies this
      ensures Valid()
      ensures !old(Owns(caller, accountId)) ==> r == Failure(InvalidAccountId)
      ensures old(Owns(caller, accountId)) && old(IndexOf(transactions, accountId, transactionId)).None?
        ==> r == Failure(InvalidTransactionId)
      ensures old(Owns(caller, accountId)) && old(IndexOf(transactions, accountId, transactionId)).Some? ==>
        var i := old(IndexOf(transactions, accountId, transactionId)).value;
        match ReverseTransaction(old(accounts)[accountId], old(transactions)[i])
        case Failure(e) => r == Failure(e)
        case Success(p) =>
          && r == Success(p.1)
          && accounts == old(accounts)[accountId := p.0]
          && transactions == RemoveAt(old(transactions), i)
      ensures r.Failure? ==> accounts == old(accounts) && transactions == old(transactions)
      ensures r.Success? ==> IndexOf(transactions, accountId, transactionId).None?
      ensures opening == old(opening)
    {
      var loaded := GetSavingsAccount(caller, accountId);
      if loaded.Failure? {
        return Failure(loaded.error);
      }
      var account := loaded.value;
      var found := GetTransaction(account.id, transactionId);
      if found.Failure? {
        return Failure(found.error);
      }
      var transaction := found.value;
      if transaction.transactionType == "TransferIn" || transaction.transactionType == "TransferOut" {
        return Failure(TransferNotDeletable);
      }
      var ty := transaction.transactionType;
      if ty == "Deposit" || ty == "TransferIn" {
        account := account.Withdraw(transaction.amount);
      } else if ty == "Withdrawal" || ty == "TransferOut" {
        account := account.Deposit(transaction.amount);
      }
      transaction := transaction.SetBalance(account);
      // the DeleteTransaction procedure: remove the row, store the new balance
      var i := IndexOf(transactions, transaction.savingsAccountId, transaction.id).value;
      assert account.balance == accounts[accountId].balance - Effect(transactions[i]);
      RemovePreservesConsistency(accounts, transactions, opening, i);
      RemoveAtDropsKey(transactions, i);
      transactions := RemoveAt(transactions, i);
      accounts := accounts[accountId := accounts[accountId].(balance := account.balance)];
      r := Success(transaction);
    }

    /**
     * Totals by type of the caller's transactions dated within [start, end];
     * rows whose type matches none of the four cases are skipped.
     */
    method GetTransactionSumsFromRange(caller: string, accountId: string, start: int, end: int)
      returns (r: Result<TypeSums, Error>)
      requires Valid()
      ensures r.Success? <==> Owns(caller, accountId)
      ensures r.Failure? ==> r.error == InvalidAccountId
      ensures r.Success? ==> r.value == SumsOf(InRange(transactions, accountId, start, end))
    {
      var loaded := GetSavingsAccount(caller, accountId);
      if loaded.Failure? {
        return Failure(loaded.error);
      }
      var rows := InRange(transactions, loaded.value.id, start, end);
      var sums := TotalsByType(rows);
      r := Success(sums);
    }
  }

  /**
   * The summing loop of the range query: one pass over the rows, adding each
   * amount to the total of its type and skipping rows of any other type.
   */
  method TotalsByType(rows: seq<Transaction>) returns (sums: TypeSums)
    ensures sums == SumsOf(rows)
  {
    var depositSum, withdrawalSum, transferInSum, transferOutSum := 0, 0, 0, 0;
    for i := 0 to |rows|
      invariant depositSum == AmountOfType(rows[..i], "Deposit")
      invariant withdrawalSum == AmountOfType(rows[..i], "Withdrawal")
      invariant transferInSum == AmountOfType(rows[..i], "TransferIn")
      invariant transferOutSum == AmountOfType(rows[..i], "TransferOut")
    {
      var t := rows[i];
      assert rows[..i + 1] == rows[..i] + [t];
      AmountOfTypeAppend(rows[..i], t, "Deposit");
      AmountOfTypeAppend(rows[..i], t, "Withdrawal");
      AmountOfTypeAppend(rows[..i], t, "TransferIn");
      AmountOfTypeAppend(rows[..i], t, "TransferOut");
      if t.transactionType == "Deposit" {
        depositSum := depositSum + t.amount;
      } else if t.transactionType == "Withdrawal" {
        withdrawalSum := withdrawalSum + t.amount;
      } else if t.transactionType == "TransferIn" {
        transferInSum := transferInSum + t.amount;
      } else if t.transactionType == "TransferOut" {
        transferOutSum := transferOutSum + t.amount;
      }
    }
    assert rows[..|rows|] == rows;
    sums := TypeSums(depositSum, withdrawalSum, transferInSum, transferOutSum);
  }
}
