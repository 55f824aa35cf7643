/**
 * The transaction table as the service's queries see it: rows in creation
 * order, identified by (account id, transaction id). Pure functions for the
 * lookups and the range query, the net effect of an account's rows, the sums
 * by type, and the lemmas that relate them.
 */
module Ledger {
  import opened Wrappers
  import opened Models

  // ---------------------------------------------------------------------------
  // Keys and lookup

  /** No two rows share an (account id, transaction id) key. */
  ghost predicate UniqueKeys(rows: seq<Transaction>) {
    forall i, j :: 0 <= i < j < |rows| ==>
      rows[i].savingsAccountId != rows[j].savingsAccountId || rows[i].id != rows[j].id
  }

  predicate HasKey(t: Transaction, accountId: string, transactionId: string) {
    t.savingsAccountId == accountId && t.id == transactionId
  }

  /** Position of the first row with the given key, as the GetTransaction query finds it. */
  function IndexOf(rows: seq<Transaction>, accountId: string, transactionId: string): (r: Option<nat>)
    ensures r.Some? ==> r.value < |rows| && HasKey(rows[r.value], accountId, transactionId)
    ensures r.Some? ==> forall k :: 0 <= k < r.value ==> !HasKey(rows[k], accountId, transactionId)
    ensures r.None? <==> forall k :: 0 <= k < |rows| ==> !HasKey(rows[k], accountId, transactionId)
  {
    if rows == [] then None
    else if HasKey(rows[0], accountId, transactionId) then Some(0)
    else match IndexOf(rows[1..], accountId, transactionId)
      case Some(k) => Some(k + 1)
      case None => None
  }

  /** The table without the row at position i. */
  function RemoveAt(rows: seq<Transaction>, i: nat): (r: seq<Transaction>)
    requires i < |rows|
    ensures |r| == |rows| - 1
    ensures forall k :: 0 <= k < i ==> r[k] == rows[k]
    ensures forall k :: i <= k < |r| ==> r[k] == rows[k + 1]
  {
    rows[..i] + rows[i + 1..]
  }

  lemma RemoveAtKeepsUniqueKeys(rows: seq<Transaction>, i: nat)
    requires i < |rows| && UniqueKeys(rows)
    ensures UniqueKeys(RemoveAt(rows, i))
  {
  }

  lemma RemoveAtDropsKey(rows: seq<Transaction>, i: nat)
    requires i < |rows| && UniqueKeys(rows)
    ensures forall k :: 0 <= k < |rows| - 1 ==>
      !HasKey(RemoveAt(rows, i)[k], rows[i].savingsAccountId, rows[i].id)
  {
  }

  // ---------------------------------------------------------------------------
  // Net effect of an account's rows

  /** Sum of the signed effects of the rows that belong to `accountId`. */
  function Net(rows: seq<Transaction>, accountId: string): int {
    if rows == [] then 0
    else (if rows[0].savingsAccountId == accountId then Effect(rows[0]) else 0)
         + Net(rows[1..], accountId)
  }

  lemma {:induction false} NetConcat(a: seq<Transaction>, b: seq<Transaction>, accountId: string)
    ensures Net(a + b, accountId) == Net(a, accountId) + Net(b, accountId)
  {
    if a == [] {
      assert a + b == b;
    } else {
      assert (a + b)[0] == a[0];
      assert (a + b)[1..] == a[1..] + b;
      NetConcat(a[1..], b, accountId);
    }
  }

  /** Removing a row takes exactly its own effect out of its account's net. */
  lemma NetRemoveAt(rows: seq<Transaction>, i: nat, accountId: string)
    requires i < |rows|
    ensures Net(RemoveAt(rows, i), accountId) ==
      Net(rows, accountId) - (if rows[i].savingsAccountId == accountId then Effect(rows[i]) else 0)
  {
    assert rows == rows[..i] + ([rows[i]] + rows[i + 1..]);
    NetConcat(rows[..i], [rows[i]] + rows[i + 1..], accountId);
    NetConcat([rows[i]], rows[i + 1..], accountId);
    NetConcat(rows[..i], rows[i + 1..], accountId);
  }

  /** Replacing a row by one with the same account and effect keeps every net. */
  lemma NetReplace(rows: seq<Transaction>, i: nat, t: Transaction, accountId: string)
    requires i < |rows|
    requires t.savingsAccountId == rows[i].savingsAccountId && Effect(t) == Effect(rows[i])
    ensures Net(rows[i := t], accountId) == Net(rows, accountId)
  {
    assert rows == rows[..i] + ([rows[i]] + rows[i + 1..]);
    assert rows[i := t] == rows[..i] + ([t] + rows[i + 1..]);
    NetConcat(rows[..i], [rows[i]] + rows[i + 1..], accountId);
    NetConcat([rows[i]], rows[i + 1..], accountId);
    NetConcat(rows[..i], [t] + rows[i + 1..], accountId);
    NetConcat([t], rows[i + 1..], accountId);
  }

  /** An account none of whose rows is in the table has a net of zero. */
  lemma {:induction false} NetOfAbsent(rows: seq<Transaction>, accountId: string)
    requires forall k :: 0 <= k < |rows| ==> rows[k].savingsAccountId != accountId
    ensures Net(rows, accountId) == 0
  {
    if rows != [] {
      NetOfAbsent(rows[1..], accountId);
    }
  }

  /** Appending a row adds its effect to its own account's net and nothing to any other. */
  lemma NetAppend(rows: seq<Transaction>, t: Transaction, accountId: string)
    ensures Net(rows + [t], accountId) ==
      Net(rows, accountId) + (if t.savingsAccountId == accountId then Effect(t) else 0)
  {
    NetConcat(rows, [t], accountId);
  }

  // ---------------------------------------------------------------------------
  // The ledger invariant over a whole store

  /**
   * A store is consistent when every account is kept under its own id, the
   * transaction keys are unique, and every account's balance is its opening
   * balance plus the net effect of its retained transactions.
   */
  ghost predicate Consistent(accounts: map<string, Account>, rows: seq<Transaction>, opening: map<string, int>) {
    && (forall id :: id in accounts ==> accounts[id].id == id)
    && UniqueKeys(rows)
    && opening.Keys == accounts.Keys
    && (forall id :: id in accounts ==> accounts[id].balance == opening[id] + Net(rows, id))
  }

  /** Removing a row while taking its effect out of its account's balance keeps the store consistent. */
  lemma RemovePreservesConsistency(accounts: map<string, Account>, rows: seq<Transaction>,
                                   opening: map<string, int>, i: nat)
    requires Consistent(accounts, rows, opening)
    requires i < |rows| && rows[i].savingsAccountId in accounts
    ensures var a := rows[i].savingsAccountId;
      Consistent(accounts[a := accounts[a].(balance := accounts[a].balance - Effect(rows[i]))],
                 RemoveAt(rows, i), opening)
  {
    var a := rows[i].savingsAccountId;
    var accounts' := accounts[a := accounts[a].(balance := accounts[a].balance - Effect(rows[i]))];
    RemoveAtKeepsUniqueKeys(rows, i);
    forall id | id in accounts'
      ensures accounts'[id].balance == opening[id] + Net(RemoveAt(rows, i), id)
    {
      NetRemoveAt(rows, i, id);
    }
  }

  /**
   * Appending a row with a fresh key while adding its effect to its account's
   * balance keeps the store consistent.
   */
  lemma AppendPreservesConsistency(accounts: map<string, Account>, rows: seq<Transaction>,
                                   opening: map<string, int>, t: Transaction)
    requires Consistent(accounts, rows, opening)
    requires t.savingsAccountId in accounts
    requires forall k :: 0 <= k < |rows| ==> !HasKey(rows[k], t.savingsAccountId, t.id)
    ensures var a := t.savingsAccountId;
      Consistent(accounts[a := accounts[a].(balance := accounts[a].balance + Effect(t))],
                 rows + [t], opening)
  {
    var a := t.savingsAccountId;
    var accounts' := accounts[a := accounts[a].(balance := accounts[a].balance + Effect(t))];
    var rows' := rows + [t];
    forall x, y | 0 <= x < y < |rows'|
      ensures rows'[x].savingsAccountId != rows'[y].savingsAccountId || rows'[x].id != rows'[y].id
    {
      if y == |rows| {
        assert rows'[x] == rows[x] && rows'[y] == t;
      } else {
        assert rows'[x] == rows[x] && rows'[y] == rows[y];
      }
    }
    forall id | id in accounts'
      ensures accounts'[id].balance == opening[id] + Net(rows', id)
    {
      NetAppend(rows, t, id);
    }
  }

  /**
   * Appending a TransferOut leg and then a TransferIn leg of the same amount,
   * debiting the first account and then crediting the second, keeps the
   * store consistent; when both legs are on one account its balance ends
   * where it began.
   */
  lemma TransferPreservesConsistency(accounts: map<string, Account>, rows: seq<Transaction>,
                                     opening: map<string, int>, amount: int,
                                     outLeg: Transaction, inLeg: Transaction)
    requires Consistent(accounts, rows, opening)
    requires outLeg.savingsAccountId in accounts && inLeg.savingsAccountId in accounts
    requires Effect(outLeg) == -amount && Effect(inLeg) == amount
    requires outLeg.id != inLeg.id
    requires forall k :: 0 <= k < |rows| ==> rows[k].id != outLeg.id && rows[k].id != inLeg.id
    ensures var debited := accounts[outLeg.savingsAccountId := accounts[outLeg.savingsAccountId].Withdraw(amount)];
      var credited := debited[inLeg.savingsAccountId := debited[inLeg.savingsAccountId].Deposit(amount)];
      Consistent(credited, rows + [outLeg, inLeg], opening)
  {
    var a, b := outLeg.savingsAccountId, inLeg.savingsAccountId;
    var debited := accounts[a := accounts[a].Withdraw(amount)];
    assert debited == accounts[a := accounts[a].(balance := accounts[a].balance + Effect(outLeg))];
    AppendPreservesConsistency(accounts, rows, opening, outLeg);
    var rows' := rows + [outLeg];
    forall k | 0 <= k < |rows'|
      ensures !HasKey(rows'[k], b, inLeg.id)
    {
      if k < |rows| {
        assert rows'[k] == rows[k];
      }
    }
    var credited := debited[b := debited[b].Deposit(amount)];
    assert credited == debited[b := debited[b].(balance := debited[b].balance + Effect(inLeg))];
    AppendPreservesConsistency(debited, rows', opening, inLeg);
    assert rows' + [inLeg] == rows + [outLeg, inLeg];
  }

  /**
   * Replacing a row by one with the same key and the same effect keeps the
   * store consistent without touching any balance.
   */
  lemma ReplacePreservesConsistency(accounts: map<string, Account>, rows: seq<Transaction>,
                                    opening: map<string, int>, i: nat, t: Transaction)
    requires Consistent(accounts, rows, opening)
    requires i < |rows| && HasKey(t, rows[i].savingsAccountId, rows[i].id) && Effect(t) == Effect(rows[i])
    ensures Consistent(accounts, rows[i := t], opening)
  {
    var rows' := rows[i := t];
    forall x, y | 0 <= x < y < |rows'|
      ensures rows'[x].savingsAccountId != rows'[y].savingsAccountId || rows'[x].id != rows'[y].id
    {
      assert rows'[x].savingsAccountId == rows[x].savingsAccountId && rows'[x].id == rows[x].id;
      assert rows'[y].savingsAccountId == rows[y].savingsAccountId && rows'[y].id == rows[y].id;
    }
    forall id | id in accounts
      ensures accounts[id].balance == opening[id] + Net(rows', id)
    {
      NetReplace(rows, i, t, id);
    }
  }

  // ---------------------------------------------------------------------------
  // Range query

  /** The rows of one account dated within [start, end], in table order. */
  function InRange(rows: seq<Transaction>, accountId: string, start: int, end: int): (r: seq<Transaction>)
    ensures forall t :: t in r <==>
      t in rows && t.savingsAccountId == accountId && start <= t.date <= end
    ensures forall t :: multiset(r)[t] ==
                        (if t.savingsAccountId == accountId && start <= t.date <= end then multiset(rows)[t] else 0)
  {
    if rows == [] then []
    else
      assert rows == [rows[0]] + rows[1..];
      var rest := InRange(rows[1..], accountId, start, end);
      if rows[0].savingsAccountId == accountId && start <= rows[0].date <= end
      then [rows[0]] + rest
      else rest
  }

  /**
   * The range query keeps table order: the rows of a concatenation are the
   * rows of its first part followed by those of its second.
   */
  lemma {:induction false} InRangeConcat(a: seq<Transaction>, b: seq<Transaction>, accountId: string,
                                         start: int, end: int)
    ensures InRange(a + b, accountId, start, end) == InRange(a, accountId, start, end) + InRange(b, accountId, start, end)
  {
    if a == [] {
      assert a + b == b;
    } else {
      assert (a + b)[1..] == a[1..] + b;
      InRangeConcat(a[1..], b, accountId, start, end);
    }
  }

  // ---------------------------------------------------------------------------
  // Sums by type

  /** The four totals the range-sum response carries. */
  datatype TypeSums = TypeSums(depositSum: int, withdrawalSum: int, transferInSum: int, transferOutSum: int)

  /** Total amount of the rows whose type string is exactly `name`. */
  function AmountOfType(rows: seq<Transaction>, name: string): int {
    if rows == [] then 0
    else (if rows[0].transactionType == name then rows[0].amount else 0)
         + AmountOfType(rows[1..], name)
  }

  /** Each total is the amount of the rows of its own type. */
  function SumsOf(rows: seq<Transaction>): TypeSums {
    TypeSums(
      AmountOfType(rows, Deposit.Name()),
      AmountOfType(rows, Withdrawal.Name()),
      AmountOfType(rows, TransferIn.Name()),
      AmountOfType(rows, TransferOut.Name()))
  }

  lemma {:induction false} AmountOfTypeAppend(rows: seq<Transaction>, t: Transaction, name: string)
    ensures AmountOfType(rows + [t], name) ==
      AmountOfType(rows, name) + (if t.transactionType == name then t.amount else 0)
  {
    if rows == [] {
      assert rows + [t] == [t];
      assert [t][1..] == [];
    } else {
      assert (rows + [t])[0] == rows[0];
      assert (rows + [t])[1..] == rows[1..] + [t];
      AmountOfTypeAppend(rows[1..], t, name);
    }
  }

  /** An empty range yields four zero totals. */
  lemma EmptyRangeSums()
    ensures SumsOf([]) == TypeSums(0, 0, 0, 0)
  {
  }

  /**
   * A row whose type string names none of the four types contributes to no
   * total, wherever it stands in the list.
   */
  lemma {:induction false} UnmappedTypeIgnored(a: seq<Transaction>, t: Transaction, b: seq<Transaction>)
    requires StringToTransactionType(t.transactionType).None?
    ensures SumsOf(a + [t] + b) == SumsOf(a + b)
  {
    if a == [] {
      assert a + [t] + b == [t] + b;
      assert ([t] + b)[1..] == b;
      assert a + b == b;
    } else {
      assert (a + [t] + b)[0] == a[0] && (a + b)[0] == a[0];
      assert (a + [t] + b)[1..] == a[1..] + [t] + b;
      assert (a + b)[1..] == a[1..] + b;
      UnmappedTypeIgnored(a[1..], t, b);
    }
  }

  /**
   * For rows of one account, the net balance change they made is deposits
   * minus withdrawals plus transfers in minus transfers out.
   */
  lemma {:induction false} NetFromSums(rows: seq<Transaction>, accountId: string)
    requires forall k :: 0 <= k < |rows| ==> rows[k].savingsAccountId == accountId
    ensures var s := SumsOf(rows);
      Net(rows, accountId) == s.depositSum - s.withdrawalSum + s.transferInSum - s.transferOutSum
  {
    if rows != [] {
      NetFromSums(rows[1..], accountId);
    }
  }
}
