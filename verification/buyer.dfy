/**
 * A buyer (buyer.h, buyer.cpp): a user optionally linked to a bank account,
 * with a purchase log and spending analytics. The C++ code keeps a raw pointer
 * to a `BankCustomer`; here the link is the account number, resolved in the
 * bank that owns the account, and money operations return the updated bank.
 */
module Buyers {
  import opened Wrappers
  import opened Ordering
  import opened Seqs
  import opened Purchases
  import opened Users
  import Customers
  import Banks

  datatype Buyer = Buyer(user: User, account: Option<string>, purchases: seq<Purchase>)

  function NewBuyer(id: int, name: string): (r: Buyer)
    ensures r.user == NewUser(id, name) && r.account.None? && r.purchases == []
  {
    Buyer(NewUser(id, name), None, [])
  }

  /** Links (or re-links) the buyer to an account; `None`, a null pointer in the C++ code, unlinks. */
  function CreateBankAccount(b: Buyer, account: Option<string>): (r: Buyer)
    ensures r.account == account
    ensures r.(account := b.account) == b
  {
    b.(account := account)
  }

  /** `hasBankAccount`, with the pointer's target looked up in `bank`. */
  predicate Linked(b: Buyer, bank: Banks.Bank) {
    b.account.Some? && b.account.value in bank.customers
  }

  /** Credits a positive amount to the linked account; otherwise reports false and changes nothing. */
  function Deposit(b: Buyer, bank: Banks.Bank, amount: int, now: int): (r: (bool, Banks.Bank))
    ensures r.0 <==> Linked(b, bank) && amount > 0
    ensures !r.0 ==> r.1 == bank
    ensures r.1.(customers := bank.customers) == bank && r.1.customers.Keys == bank.customers.Keys
    ensures r.0 ==> var k := b.account.value;
                    && r.1.customers[k] == bank.customers[k].(balance := bank.customers[k].balance + amount, lastActivityTime := now)
                    && forall k' :: k' in bank.customers && k' != k ==> r.1.customers[k'] == bank.customers[k']
  {
    if Linked(b, bank) && amount > 0 then
      var k := b.account.value;
      (true, bank.(customers := bank.customers[k := Customers.Deposit(bank.customers[k], amount, now)]))
    else (false, bank)
  }

  /** Debits a positive amount the linked account covers; otherwise reports false and changes nothing. */
  function Withdraw(b: Buyer, bank: Banks.Bank, amount: int, now: int): (r: (bool, Banks.Bank))
    ensures r.0 <==> Linked(b, bank) && amount > 0 && bank.customers[b.account.value].balance >= amount
    ensures !r.0 ==> r.1 == bank
    ensures r.1.(customers := bank.customers) == bank && r.1.customers.Keys == bank.customers.Keys
    ensures r.0 ==> var k := b.account.value;
                    && r.1.customers[k] == bank.customers[k].(balance := bank.customers[k].balance - amount, lastActivityTime := now)
                    && forall k' :: k' in bank.customers && k' != k ==> r.1.customers[k'] == bank.customers[k']
  {
    if Linked(b, bank) && amount > 0 && bank.customers[b.account.value].balance >= amount then
      var k := b.account.value;
      (true, bank.(customers := bank.customers[k := Customers.Withdraw(bank.customers[k], amount, now).1]))
    else (false, bank)
  }

  /** The linked account's balance, or 0 without one. */
  function GetBalance(b: Buyer, bank: Banks.Bank): (r: int)
    ensures Linked(b, bank) ==> r == bank.customers[b.account.value].balance
    ensures !Linked(b, bank) ==> r == 0
  {
    if Linked(b, bank) then bank.customers[b.account.value].balance else 0
  }

  /** A deposit adds exactly its amount to the bank's total holdings, and a withdrawal removes it. */
  lemma MoneyMovesTotal(b: Buyer, bank: Banks.Bank, amount: int, now: int)
    ensures Deposit(b, bank, amount, now).0 ==>
              Banks.TotalBalance(Deposit(b, bank, amount, now).1.customers) == Banks.TotalBalance(bank.customers) + amount
    ensures Withdraw(b, bank, amount, now).0 ==>
              Banks.TotalBalance(Withdraw(b, bank, amount, now).1.customers) == Banks.TotalBalance(bank.customers) - amount
  {
    if Linked(b, bank) {
      var k := b.account.value;
      Banks.TotalBalanceUpdate(bank.customers, k, Customers.Deposit(bank.customers[k], amount, now));
      Banks.TotalBalanceUpdate(bank.customers, k, Customers.Withdraw(bank.customers[k], amount, now).1);
    }
  }

  /** In a bank without overdrawn accounts, withdrawing what was just deposited succeeds and restores every balance. */
  lemma DepositThenWithdraw(b: Buyer, bank: Banks.Bank, amount: int, now: int)
    requires Banks.Valid(bank)
    requires Deposit(b, bank, amount, now).0
    ensures Withdraw(b, Deposit(b, bank, amount, now).1, amount, now).0
    ensures GetBalance(b, Withdraw(b, Deposit(b, bank, amount, now).1, amount, now).1) == GetBalance(b, bank)
    ensures forall k :: k in bank.customers ==>
              Withdraw(b, Deposit(b, bank, amount, now).1, amount, now).1.customers[k].balance == bank.customers[k].balance
  {
  }

  // ---- purchases ----

  function AddTransaction(b: Buyer, p: Purchase): (r: Buyer)
    ensures r.purchases == b.purchases + [p]
    ensures r.(purchases := b.purchases) == b
  {
    b.(purchases := b.purchases + [p])
  }

  /** The purchases with status `st`, in log order. */
  function GetTransactions(b: Buyer, st: Status): (r: seq<Purchase>)
    ensures forall p :: p in r <==> p in b.purchases && p.status == st
    ensures forall p :: multiset(r)[p] == if p.status == st then multiset(b.purchases)[p] else 0
    ensures Subsequence(r, b.purchases)
  {
    FilterIsSubsequence(b.purchases, (p: Purchase) => p.status == st);
    FilterCounts(b.purchases, (p: Purchase) => p.status == st);
    Filter(b.purchases, (p: Purchase) => p.status == st)
  }

  /** Every purchase has exactly one status: the four filtered lists together are as long as the log. */
  lemma {:induction false} StatusesPartition(s: seq<Purchase>)
    ensures |Filter(s, (p: Purchase) => p.status == Pending)| + |Filter(s, (p: Purchase) => p.status == Paid)|
          + |Filter(s, (p: Purchase) => p.status == Completed)| + |Filter(s, (p: Purchase) => p.status == Canceled)|
         == |s|
  {
    if s != [] {
      StatusesPartition(s[1..]);
    }
  }

  lemma GetTransactionsPartition(b: Buyer)
    ensures |GetTransactions(b, Pending)| + |GetTransactions(b, Paid)|
          + |GetTransactions(b, Completed)| + |GetTransactions(b, Canceled)| == |b.purchases|
  {
    StatusesPartition(b.purchases);
  }

  /** A purchase that counts as spending: inside the window and not canceled. */
  predicate Spent(p: Purchase, days: int, now: int) {
    IsWithinDays(p, days, now) && p.status != Canceled
  }

  /** The purchases counted as spending, in log order. */
  function Spending(s: seq<Purchase>, days: int, now: int): seq<Purchase> {
    Filter(s, (p: Purchase) => Spent(p, days, now))
  }

  function TotalSpending(b: Buyer, days: int, now: int): int {
    SumOf(Spending(b.purchases, days, now), Amount)
  }

  /** Logging a purchase adds its amount to the spending exactly when it is recent and not canceled. */
  lemma TotalSpendingAfterAdd(b: Buyer, p: Purchase, days: int, now: int)
    ensures TotalSpending(AddTransaction(b, p), days, now)
         == TotalSpending(b, days, now) + (if Spent(p, days, now) then p.amount else 0)
  {
    FilterAppend(b.purchases, p, (x: Purchase) => Spent(x, days, now));
    assert Spending(b.purchases + [p], days, now)
        == Spending(b.purchases, days, now) + (if Spent(p, days, now) then [p] else []);
    if Spent(p, days, now) {
      SumAppend(Spending(b.purchases, days, now), p, Amount);
    } else {
      assert Spending(b.purchases, days, now) + [] == Spending(b.purchases, days, now);
    }
  }

  // ---- cash flow ----

  function Amount(p: Purchase): int {
    p.amount
  }

  /** The purchases stamped at one of `times`. */
  function StampedAt(s: seq<Purchase>, times: seq<int>): seq<Purchase> {
    Filter(s, (p: Purchase) => p.timestamp in times)
  }

  /** The total amount of the purchases stamped exactly `t`. */
  function AmountAt(s: seq<Purchase>, t: int): int {
    SumOf(StampedAt(s, [t]), Amount)
  }

  function Timestamps(s: seq<Purchase>): (r: set<int>)
    ensures forall t :: t in r <==> exists p :: p in s && p.timestamp == t
  {
    set p | p in s :: p.timestamp
  }

  function Buckets(s: seq<Purchase>, times: seq<int>): (r: seq<(int, int)>)
    ensures |r| == |times|
    ensures forall i :: 0 <= i < |times| ==> r[i] == (times[i], AmountAt(s, times[i]))
  {
    if times == [] then [] else [(times[0], AmountAt(s, times[0]))] + Buckets(s, times[1..])
  }

  /**
   * `getCashFlow()` (per exact timestamp): one entry per distinct timestamp,
   * in ascending time order, carrying the total amount stamped then.
   */
  function CashFlow(b: Buyer): (r: seq<(int, int)>)
    ensures forall i, j :: 0 <= i < j < |r| ==> r[i].0 < r[j].0
    ensures forall i :: 0 <= i < |r| ==> r[i].0 in Timestamps(b.purchases)
    ensures forall p :: p in b.purchases ==> exists i :: 0 <= i < |r| && r[i].0 == p.timestamp
    ensures forall i :: 0 <= i < |r| ==> r[i].1 == AmountAt(b.purchases, r[i].0)
  {
    var times := SortedInts(Timestamps(b.purchases));
    BucketsKeys(b.purchases, times);
    Buckets(b.purchases, times)
  }

  /** Buckets over every timestamp of `s`, ascending, are keyed exactly by those timestamps, ascending. */
  lemma BucketsKeys(s: seq<Purchase>, times: seq<int>)
    requires forall i, j :: 0 <= i < j < |times| ==> times[i] < times[j]
    requires forall t :: t in times <==> t in Timestamps(s)
    ensures forall i, j :: 0 <= i < j < |Buckets(s, times)| ==> Buckets(s, times)[i].0 < Buckets(s, times)[j].0
    ensures forall i :: 0 <= i < |Buckets(s, times)| ==> Buckets(s, times)[i].0 in Timestamps(s)
    ensures forall p :: p in s ==> exists i :: 0 <= i < |Buckets(s, times)| && Buckets(s, times)[i].0 == p.timestamp
  {
    var r := Buckets(s, times);
    assert forall i :: 0 <= i < |r| ==> r[i].0 == times[i];
    forall p | p in s
      ensures exists i :: 0 <= i < |r| && r[i].0 == p.timestamp
    {
      assert p.timestamp in Timestamps(s);
      var i :| 0 <= i < |times| && times[i] == p.timestamp;
      assert r[i].0 == p.timestamp;
    }
  }

  function SumSeconds(r: seq<(int, int)>): int {
    if r == [] then 0 else r[0].1 + SumSeconds(r[1..])
  }

  /** Grouping neither loses nor double-counts money: the buckets add up to the whole log. */
  lemma CashFlowTotal(b: Buyer)
    ensures SumSeconds(CashFlow(b)) == SumOf(b.purchases, Amount)
  {
    var times := SortedInts(Timestamps(b.purchases));
    assert CashFlow(b) == Buckets(b.purchases, times);
    SortedIntsDistinct(Timestamps(b.purchases));
    BucketsSum(b.purchases, times);
    FilterAll(b.purchases, (p: Purchase) => p.timestamp in times);
  }

  /** The buckets for a duplicate-free list of times add up to the purchases stamped at one of them. */
  lemma {:induction false} BucketsSum(s: seq<Purchase>, times: seq<int>)
    requires Distinct(times)
    ensures SumSeconds(Buckets(s, times)) == SumOf(StampedAt(s, times), Amount)
  {
    if times == [] {
      FilterNone(s, (p: Purchase) => p.timestamp in times);
    } else {
      var rest := times[1..];
      BucketsSum(s, rest);
      assert Buckets(s, times)[1..] == Buckets(s, rest);
      assert times == [times[0]] + rest;
      SplitSum(s, times[0], rest);
    }
  }

  /** Purchases stamped `t0` or at one of `rest` (with `t0` not among them) sum as the two groups. */
  lemma {:induction false} SplitSum(s: seq<Purchase>, t0: int, rest: seq<int>)
    requires t0 !in rest
    ensures SumOf(StampedAt(s, [t0] + rest), Amount) == AmountAt(s, t0) + SumOf(StampedAt(s, rest), Amount)
  {
    if s != [] {
      SplitSum(s[1..], t0, rest);
      SumFilterStep(s, (p: Purchase) => p.timestamp in [t0] + rest, Amount);
      SumFilterStep(s, (p: Purchase) => p.timestamp in [t0], Amount);
      SumFilterStep(s, (p: Purchase) => p.timestamp in rest, Amount);
    }
  }
}
