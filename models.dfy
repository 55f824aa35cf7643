/**
 * The entities the account service works on: savings accounts and their
 * transactions. The model classes themselves are not part of this model; their
 * methods get the smallest meaning their call sites in the service need:
 * Deposit adds, Withdraw subtracts, ChangeName replaces the name, SetBalance
 * copies the account's balance, and CreateNewTransaction applies the new
 * transaction to the account before stamping the balance on it.
 * Money is an integer number of cents; dates are integer day numbers.
 */
module Models {
  import opened Wrappers

  /** The transaction type enumeration; a stored row keeps its name as a string. */
  datatype TransactionType = Deposit | Withdrawal | TransferIn | TransferOut {

    function Name(): string {
      match this
      case Deposit => "Deposit"
      case Withdrawal => "Withdrawal"
      case TransferIn => "TransferIn"
      case TransferOut => "TransferOut"
    }

    /** True for the types that add to the balance when applied. */
    predicate Credits() {
      Deposit? || TransferIn?
    }
  }

  /**
   * Parses a stored type name back into the enumeration. A name outside the
   * enumeration (for example "Transfer") does not parse.
   */
  function StringToTransactionType(s: string): (r: Option<TransactionType>)
    ensures r.Some? ==> r.value.Name() == s
    ensures forall t: TransactionType :: t.Name() == s ==> r == Some(t)
  {
    if s == "Deposit" then Some(Deposit)
    else if s == "Withdrawal" then Some(Withdrawal)
    else if s == "TransferIn" then Some(TransferIn)
    else if s == "TransferOut" then Some(TransferOut)
    else None
  }

  /** A savings account row. */
  datatype Account = Account(id: string, userId: string, name: string, balance: int) {

    function Deposit(amount: int): Account {
      this.(balance := balance + amount)
    }

    function Withdraw(amount: int): Account {
      this.(balance := balance - amount)
    }

    function ChangeName(newName: string): Account {
      this.(name := newName)
    }
  }

  /** Account.CreateNew: a new account holding its initial balance. */
  function CreateNew(id: string, userId: string, name: string, initialBalance: int): (a: Account)
    ensures a.id == id && a.userId == userId && a.name == name
    ensures a.balance == initialBalance
  {
    Account(id, userId, name, initialBalance)
  }

  /** A transaction row; `newBalance` is the account balance it left behind. */
  datatype Transaction = Transaction(
    id: string,
    savingsAccountId: string,
    transactionType: string,
    description: string,
    amount: int,
    date: int,
    newBalance: int)
  {
    function SetBalance(account: Account): Transaction {
      this.(newBalance := account.balance)
    }
  }

  /**
   * The signed change a stored transaction made to its account's balance:
   * credits add their amount, debits subtract it, and a row whose type string
   * names no transaction type changed nothing.
   */
  function Effect(t: Transaction): int {
    match StringToTransactionType(t.transactionType)
    case Some(ty) => if ty.Credits() then t.amount else -t.amount
    case None => 0
  }

  /**
   * Transaction.CreateNewTransaction: builds a transaction of type `ty` for the
   * account, applies it to the account and stamps the resulting balance on it.
   * Returns the transaction and the updated account.
   */
  function CreateNewTransaction(id: string, ty: TransactionType, description: string,
                                amount: int, date: int, account: Account): (r: (Transaction, Account))
    ensures r.0.id == id && r.0.savingsAccountId == account.id
    ensures StringToTransactionType(r.0.transactionType) == Some(ty)
    ensures r.0.description == description && r.0.amount == amount && r.0.date == date
    ensures r.1 == account.(balance := account.balance + Effect(r.0))
    ensures r.0.newBalance == r.1.balance
  {
    var updated := if ty.Credits() then account.Deposit(amount) else account.Withdraw(amount);
    var t := Transaction(id, account.id, ty.Name(), description, amount, date, 0).SetBalance(updated);
    (t, updated)
  }

  /** Transaction.CreateExistingTransaction: a transaction value built from its fields. */
  function CreateExistingTransaction(id: string, accountId: string, ty: TransactionType,
                                     description: string, amount: int, balance: int,
                                     date: int): Transaction
  {
    Transaction(id, accountId, ty.Name(), description, amount, date, balance)
  }
}
