/**
 * The account ledger (bank.h, bank.cpp): accounts keyed by account number, an
 * insertion-ordered transfer log, all-or-nothing transfers, the analytics
 * queries and the persisted blob.
 */
module Banks {
  import opened Wrappers
  import opened Bytes
  import opened Ordering
  import opened Seqs
  import opened Clock
  import opened Transfers
  import opened Customers

  datatype Bank = Bank(id: int, name: string, address: string, phoneNumber: string,
                       customers: map<string, Customer>, transfers: seq<Transfer>)

  /** The constructors' state before any blob is loaded. */
  function NewBank(id: int, name: string, address: string, phoneNumber: string): (r: Bank)
    ensures r.customers == map[] && r.transfers == []
    ensures r.id == id && r.name == name && r.address == address && r.phoneNumber == phoneNumber
  {
    Bank(id, name, address, phoneNumber, map[], [])
  }

  // ---- setters (the getters are the datatype's fields) ----

  function SetId(b: Bank, id: int): (r: Bank)
    ensures r.id == id && r.(id := b.id) == b
  {
    b.(id := id)
  }

  function SetName(b: Bank, name: string): (r: Bank)
    ensures r.name == name && r.(name := b.name) == b
  {
    b.(name := name)
  }

  function SetAddress(b: Bank, address: string): (r: Bank)
    ensures r.address == address && r.(address := b.address) == b
  {
    b.(address := address)
  }

  function SetPhoneNumber(b: Bank, phoneNumber: string): (r: Bank)
    ensures r.phoneNumber == phoneNumber && r.(phoneNumber := b.phoneNumber) == b
  {
    b.(phoneNumber := phoneNumber)
  }

  // ---- invariant ----

  function AccountKey(c: Customer): string {
    c.accountNumber
  }

  /** Every account is filed under its own number and no balance is negative. */
  predicate Valid(b: Bank) {
    && KeyedBy(b.customers, AccountKey)
    && forall k :: k in b.customers ==> b.customers[k].balance >= 0
  }

  /** The accounts in `std::map` iteration order (ascending account number). */
  function CustomerList(b: Bank): (r: seq<Customer>)
    ensures |r| == |b.customers|
    ensures forall c :: c in r <==> c in b.customers.Values
    ensures forall i :: 0 <= i < |r| ==> r[i] == b.customers[SortedStrings(b.customers.Keys)[i]]
  {
    SortedStringValues(b.customers);
    Values(b.customers, SortedStrings(b.customers.Keys))
  }

  // ---- customer management ----

  /** Inserts the account unless its number is taken; never overwrites. */
  function AddCustomer(b: Bank, c: Customer): (r: (bool, Bank))
    ensures r.0 <==> c.accountNumber !in b.customers
    ensures r.0 ==> r.1.customers == b.customers[c.accountNumber := c]
    ensures r.0 ==> r.1.(customers := b.customers) == b
    ensures !r.0 ==> r.1 == b
  {
    if c.accountNumber !in b.customers then (true, b.(customers := b.customers[c.accountNumber := c]))
    else (false, b)
  }

  /** Adding the same account twice leaves the state of adding it once, and the second call reports false. */
  lemma AddCustomerIdempotent(b: Bank, c: Customer)
    ensures AddCustomer(AddCustomer(b, c).1, c) == (false, AddCustomer(b, c).1)
  {
  }

  lemma AddCustomerPreservesValid(b: Bank, c: Customer)
    requires Valid(b) && c.balance >= 0
    ensures Valid(AddCustomer(b, c).1)
  {
  }

  /** The account under `accountNumber`, or none (a null `BankCustomer*` in the C++ code). */
  function FindCustomer(b: Bank, accountNumber: string): (r: Option<Customer>)
    ensures r.Some? <==> accountNumber in b.customers
    ensures r.Some? ==> r.value == b.customers[accountNumber]
  {
    if accountNumber in b.customers then Some(b.customers[accountNumber]) else None
  }

  lemma FindAfterAdd(b: Bank, c: Customer)
    ensures FindCustomer(AddCustomer(b, c).1, c.accountNumber).Some?
    ensures AddCustomer(b, c).0 ==> FindCustomer(AddCustomer(b, c).1, c.accountNumber) == Some(c)
  {
  }

  // ---- transfers ----

  /**
   * Moves `t.amount` from sender to receiver and logs `t`, provided both accounts
   * exist and the sender's balance covers the amount; otherwise nothing changes.
   * The debit and credit go through `Withdraw` and `Deposit`, which ignore a
   * non-positive amount; per-account histories are not touched.
   */
  function ProcessTransaction(b: Bank, t: Transfer, now: int): (r: (bool, Bank))
    ensures r.0 <==> t.fromAccount in b.customers && t.toAccount in b.customers
                     && b.customers[t.fromAccount].balance >= t.amount
    ensures !r.0 ==> r.1 == b
    ensures r.0 ==> r.1.transfers == b.transfers + [t]
    ensures r.1.(customers := b.customers, transfers := b.transfers) == b
    ensures r.1.customers.Keys == b.customers.Keys
    ensures forall k :: k in b.customers ==> r.1.customers[k].history == b.customers[k].history
    ensures forall k :: k in b.customers && k != t.fromAccount && k != t.toAccount ==> r.1.customers[k] == b.customers[k]
    ensures r.0 && t.amount > 0 && t.fromAccount != t.toAccount ==>
              var sender, receiver := b.customers[t.fromAccount], b.customers[t.toAccount];
              && r.1.customers[t.fromAccount] == sender.(balance := sender.balance - t.amount, lastActivityTime := now)
              && r.1.customers[t.toAccount] == receiver.(balance := receiver.balance + t.amount, lastActivityTime := now)
    ensures r.0 && t.amount > 0 && t.fromAccount == t.toAccount ==>
              r.1.customers[t.fromAccount] == b.customers[t.fromAccount].(lastActivityTime := now)
    ensures t.amount <= 0 ==> r.1.customers == b.customers
  {
    if t.fromAccount in b.customers && t.toAccount in b.customers
       && b.customers[t.fromAccount].balance >= t.amount
    then
      var m1 := b.customers[t.fromAccount := Withdraw(b.customers[t.fromAccount], t.amount, now).1];
      var m2 := m1[t.toAccount := Deposit(m1[t.toAccount], t.amount, now)];
      (true, b.(customers := m2, transfers := b.transfers + [t]))
    else (false, b)
  }

  function Balance(c: Customer): int {
    c.balance
  }

  /** All money held by the bank. */
  function TotalBalance(m: map<string, Customer>): int {
    SumOver(m, SortedStrings(m.Keys), Balance)
  }

  /** Replacing one account changes the bank's holdings by exactly its balance change. */
  lemma TotalBalanceUpdate(m: map<string, Customer>, k: string, c: Customer)
    requires k in m
    ensures TotalBalance(m[k := c]) == TotalBalance(m) + c.balance - m[k].balance
  {
    assert m[k := c].Keys == m.Keys;
    SortedStringsDistinct(m.Keys);
    SumOverUpdate(m, SortedStrings(m.Keys), k, c, Balance);
  }

  /** A transfer neither creates nor destroys money. */
  lemma TransferConservesTotal(b: Bank, t: Transfer, now: int)
    ensures TotalBalance(ProcessTransaction(b, t, now).1.customers) == TotalBalance(b.customers)
  {
    if ProcessTransaction(b, t, now).0 {
      var sender := b.customers[t.fromAccount];
      var m1 := b.customers[t.fromAccount := Withdraw(sender, t.amount, now).1];
      TotalBalanceUpdate(b.customers, t.fromAccount, Withdraw(sender, t.amount, now).1);
      TotalBalanceUpdate(m1, t.toAccount, Deposit(m1[t.toAccount], t.amount, now));
    }
  }

  lemma TransferPreservesValid(b: Bank, t: Transfer, now: int)
    requires Valid(b)
    ensures Valid(ProcessTransaction(b, t, now).1)
  {
  }

  // ---- analytics ----

  predicate IsRecent(t: Transfer, days: int, now: int) {
    WithinDays(now, t.timestamp, days)
  }

  /** The logged transfers at most `days * 24` whole hours old, in log order. */
  function RecentTransactions(b: Bank, days: int, now: int): (r: seq<Transfer>)
    ensures |r| <= |b.transfers|
    ensures forall t :: t in r <==> t in b.transfers && IsRecent(t, days, now)
    ensures forall t :: multiset(r)[t] == if IsRecent(t, days, now) then multiset(b.transfers)[t] else 0
    ensures Subsequence(r, b.transfers)
  {
    var r := Filter(b.transfers, t => IsRecent(t, days, now));
    FilterIsSubsequence(b.transfers, t => IsRecent(t, days, now));
    FilterCounts(b.transfers, t => IsRecent(t, days, now));
    r
  }

  /** A wider window returns everything a narrower one does, in the same order. */
  lemma RecentTransactionsMonotone(b: Bank, d1: int, d2: int, now: int)
    requires d1 <= d2
    ensures Subsequence(RecentTransactions(b, d1, now), RecentTransactions(b, d2, now))
  {
    FilterMonotone(b.transfers, t => IsRecent(t, d1, now), t => IsRecent(t, d2, now));
  }

  /** No activity for at least 30 days (720 whole hours). */
  predicate Dormant(c: Customer, now: int) {
    HoursSince(now, c.lastActivityTime) >= 30 * 24
  }

  /** The dormant accounts, in account-number order. */
  function DormantAccounts(b: Bank, now: int): (r: seq<Customer>)
    ensures |r| <= |b.customers|
    ensures forall c :: c in r <==> c in b.customers.Values && Dormant(c, now)
    ensures forall c :: multiset(r)[c] == if Dormant(c, now) then multiset(CustomerList(b))[c] else 0
    ensures Subsequence(r, CustomerList(b))
  {
    var r := Filter(CustomerList(b), c => Dormant(c, now));
    FilterIsSubsequence(CustomerList(b), c => Dormant(c, now));
    FilterCounts(CustomerList(b), c => Dormant(c, now));
    r
  }

  lemma DormantInKeyOrder(b: Bank, now: int)
    requires KeyedBy(b.customers, AccountKey)
    ensures forall i, j :: 0 <= i < j < |DormantAccounts(b, now)| ==>
              StrLt(DormantAccounts(b, now)[i].accountNumber, DormantAccounts(b, now)[j].accountNumber)
  {
    var all := CustomerList(b);
    var keys := SortedStrings(b.customers.Keys);
    forall i | 0 <= i < |all|
      ensures all[i].accountNumber == keys[i]
    {
      assert keys[i] in b.customers;
      assert all[i] == b.customers[keys[i]];
    }
    var byNumber := (x: Customer, y: Customer) => StrLt(x.accountNumber, y.accountNumber);
    forall i, j | 0 <= i < j < |all|
      ensures byNumber(all[i], all[j])
    {
      assert StrLt(keys[i], keys[j]);
    }
    FilterKeepsOrder(all, c => Dormant(c, now), byNumber);
  }

  /** `t` is at most 24 whole hours old and `accountNumber` sent or received it. */
  predicate TouchesToday(t: Transfer, accountNumber: string, now: int) {
    WithinDay(now, t.timestamp) && (t.fromAccount == accountNumber || t.toAccount == accountNumber)
  }

  /** Transfers in the last 24 hours sent or received by `accountNumber`. */
  function CountTodayTransactions(b: Bank, accountNumber: string, now: int): (r: nat)
    ensures r <= |b.transfers|
  {
    Count(b.transfers, (x: Transfer) => TouchesToday(x, accountNumber, now))
  }

  /** Logging one more transfer raises an account's count exactly when it is recent and touches that account. */
  lemma CountTodayAfterTransfer(b: Bank, t: Transfer, accountNumber: string, now: int)
    requires ProcessTransaction(b, t, now).0
    ensures CountTodayTransactions(ProcessTransaction(b, t, now).1, accountNumber, now)
         == CountTodayTransactions(b, accountNumber, now)
            + (if TouchesToday(t, accountNumber, now) then 1 else 0)
  {
    CountAppend(b.transfers, t, (x: Transfer) => TouchesToday(x, accountNumber, now));
  }

  /** Transfers today touching `c`'s account; the key `getMostActiveUsers` sorts by. */
  function Activity(b: Bank, c: Customer, now: int): nat {
    CountTodayTransactions(b, c.accountNumber, now)
  }

  function ActivityRank(b: Bank, now: int): Customer -> Rank {
    (c: Customer) => Rank(Activity(b, c, now), 0)
  }

  /**
   * The `n` accounts with the most transfers today, busiest first (all of them
   * when `n` is negative); no account left out is busier than one kept.
   */
  function MostActiveUsers(b: Bank, n: int, now: int): (r: seq<Customer>)
    ensures |r| == (if 0 <= n < |b.customers| then n else |b.customers|)
    ensures multiset(r) <= multiset(CustomerList(b))
    ensures forall i, j :: 0 <= i < j < |r| ==> Activity(b, r[j], now) <= Activity(b, r[i], now)
    ensures forall c, i :: c in multiset(CustomerList(b)) - multiset(r) && 0 <= i < |r| ==>
              Activity(b, c, now) <= Activity(b, r[i], now)
  {
    var r := TopByRank(CustomerList(b), ActivityRank(b, now), n);
    ActivityOrder(b, CustomerList(b), r, now);
    r
  }

  /** Ordering by `ActivityRank` is ordering by the number of transfers today. */
  lemma ActivityOrder(b: Bank, all: seq<Customer>, r: seq<Customer>, now: int)
    requires SortedDesc(r, ActivityRank(b, now))
    requires forall x, i :: x in multiset(all) - multiset(r) && 0 <= i < |r| ==>
               RankLe(ActivityRank(b, now)(x), ActivityRank(b, now)(r[i]))
    ensures forall i, j :: 0 <= i < j < |r| ==> Activity(b, r[j], now) <= Activity(b, r[i], now)
    ensures forall c, i :: c in multiset(all) - multiset(r) && 0 <= i < |r| ==>
              Activity(b, c, now) <= Activity(b, r[i], now)
  {
    var rank := ActivityRank(b, now);
    forall i, j | 0 <= i < j < |r| ensures Activity(b, r[j], now) <= Activity(b, r[i], now) {
      assert RankLe(rank(r[j]), rank(r[i]));
    }
    forall c, i | c in multiset(all) - multiset(r) && 0 <= i < |r|
      ensures Activity(b, c, now) <= Activity(b, r[i], now)
    {
      assert RankLe(rank(c), rank(r[i]));
    }
  }

  // ---- report ----

  /** The figures `generateReport` prints, without the text around them. */
  datatype Report = Report(customerCount: nat, dormantCount: nat, weekCount: nat, weekTotal: int,
                           topActive: seq<(string, nat)>)

  /** Each account's name beside its number of transfers today. */
  function Tally(b: Bank, cs: seq<Customer>, now: int): (r: seq<(string, nat)>)
    ensures |r| == |cs|
    ensures forall i :: 0 <= i < |cs| ==> r[i] == (cs[i].name, Activity(b, cs[i], now))
  {
    if cs == [] then [] else [(cs[0].name, Activity(b, cs[0], now))] + Tally(b, cs[1..], now)
  }

  /** The five busiest accounts today with their counts, busiest first. */
  function TopActive(b: Bank, now: int): (r: seq<(string, nat)>)
    ensures |r| == (if |b.customers| < 5 then |b.customers| else 5)
    ensures forall i :: 0 <= i < |r| ==>
              var c := MostActiveUsers(b, 5, now)[i];
              r[i] == (c.name, CountTodayTransactions(b, c.accountNumber, now))
    ensures forall i :: 0 <= i < |r| ==> r[i].1 <= |b.transfers|
    ensures forall i, j :: 0 <= i < j < |r| ==> r[j].1 <= r[i].1
  {
    var top := MostActiveUsers(b, 5, now);
    TallyOrdered(b, top, now);
    Tally(b, top, now)
  }

  lemma TallyOrdered(b: Bank, top: seq<Customer>, now: int)
    requires forall i, j :: 0 <= i < j < |top| ==> Activity(b, top[j], now) <= Activity(b, top[i], now)
    ensures forall i :: 0 <= i < |top| ==> Tally(b, top, now)[i].1 <= |b.transfers|
    ensures forall i, j :: 0 <= i < j < |top| ==> Tally(b, top, now)[j].1 <= Tally(b, top, now)[i].1
  {
  }

  function TransferAmount(t: Transfer): int {
    t.amount
  }

  /**
   * The report's figures: account count, dormant count, the number and total
   * value of transfers in the last 7 days, and the five busiest accounts today.
   */
  function GenerateReport(b: Bank, now: int): (r: Report)
    ensures r.customerCount == |b.customers|
    ensures r.dormantCount == |DormantAccounts(b, now)| <= r.customerCount
    ensures r.weekCount == |RecentTransactions(b, 7, now)| <= |b.transfers|
    ensures r.weekTotal == SumOf(RecentTransactions(b, 7, now), TransferAmount)
    ensures r.topActive == TopActive(b, now)
    ensures |r.topActive| == (if |b.customers| < 5 then |b.customers| else 5)
    ensures forall i :: 0 <= i < |r.topActive| ==> r.topActive[i].1 <= |b.transfers|
    ensures forall i, j :: 0 <= i < j < |r.topActive| ==> r.topActive[j].1 <= r.topActive[i].1
  {
    var week := RecentTransactions(b, 7, now);
    Report(|b.customers|, |DormantAccounts(b, now)|, |week|, SumOf(week, TransferAmount), TopActive(b, now))
  }

  /**
   * An accepted transfer leaves the account count alone and adds itself to the
   * weekly count and total exactly when it is at most 7 days old.
   */
  lemma ReportAfterTransfer(b: Bank, t: Transfer, now: int)
    requires ProcessTransaction(b, t, now).0
    ensures GenerateReport(ProcessTransaction(b, t, now).1, now).customerCount == GenerateReport(b, now).customerCount
    ensures GenerateReport(ProcessTransaction(b, t, now).1, now).weekCount
         == GenerateReport(b, now).weekCount + (if IsRecent(t, 7, now) then 1 else 0)
    ensures GenerateReport(ProcessTransaction(b, t, now).1, now).weekTotal
         == GenerateReport(b, now).weekTotal + (if IsRecent(t, 7, now) then t.amount else 0)
  {
    var p := (x: Transfer) => IsRecent(x, 7, now);
    FilterAppend(b.transfers, t, p);
    assert RecentTransactions(ProcessTransaction(b, t, now).1, 7, now)
        == RecentTransactions(b, 7, now) + (if p(t) then [t] else []);
    if p(t) {
      SumAppend(RecentTransactions(b, 7, now), t, TransferAmount);
    } else {
      assert RecentTransactions(b, 7, now) + [] == RecentTransactions(b, 7, now);
    }
  }

  // ---- persisted blob ----

  /** What the blob can carry unchanged. */
  predicate Storable(b: Bank) {
    && KeyedBy(b.customers, AccountKey)
    && IsInt32(b.id) && Bytes.Storable(b.name)
    && |b.customers| < 2 * Int64Bound && |b.transfers| < 2 * Int64Bound
    && (forall k :: k in b.customers ==> Customers.Storable(b.customers[k]))
    && (forall t :: t in b.transfers ==> Transfers.Storable(t))
  }

  /** id, name, the count-prefixed accounts in key order, the count-prefixed transfer log. */
  function Save(b: Bank): seq<byte>
  {
    EncodeI32(b.id) + (EncodeString(b.name)
    + (EncodeList(CustomerList(b), Customers.Encode) + EncodeList(b.transfers, Transfers.Encode)))
  }

  /**
   * A bank constructed with `address` and `phoneNumber` and hydrated from
   * `blob`: the blob supplies id, name, accounts (each filed under its own
   * number) and the transfer log.
   */
  function Load(address: string, phoneNumber: string, blob: seq<byte>): Option<Bank>
  {
    var id :- DecodeI32(blob);
    var name :- DecodeString(id.1);
    var cs :- DecodeList(name.1, Customers.Decode);
    var ts :- DecodeList(cs.1, Transfers.Decode);
    Some(Bank(id.0, name.0, address, phoneNumber, Collect(map[], cs.0, AccountKey), ts.0))
  }

  /** Everything but the address and phone number survives a save and a load. */
  lemma SaveLoadRoundTrip(b: Bank, address: string, phoneNumber: string)
    requires Storable(b)
    ensures Load(address, phoneNumber, Save(b)) == Some(b.(address := address, phoneNumber := phoneNumber))
  {
    var cl := CustomerList(b);
    var t3 := EncodeList(b.transfers, Transfers.Encode);
    var t2 := EncodeList(cl, Customers.Encode) + t3;
    var t1 := EncodeString(b.name) + t2;
    I32RoundTrip(b.id, t1);
    assert DecodeI32(Save(b)) == Some((b.id, t1));
    StringRoundTrip(b.name, t2);
    assert DecodeString(t1) == Some((b.name, t2));
    AccountsRoundTrip(b, t3);
    assert DecodeList(t2, Customers.Decode) == Some((cl, t3));
    TransfersRoundTrip(b);
    assert DecodeList(t3, Transfers.Decode) == Some((b.transfers, []));
    CollectSortedValues(b.customers, AccountKey);
    assert Collect(map[], cl, AccountKey) == b.customers;
  }

  lemma AccountsRoundTrip(b: Bank, tail: seq<byte>)
    requires Storable(b)
    ensures DecodeList(EncodeList(CustomerList(b), Customers.Encode) + tail, Customers.Decode)
         == Some((CustomerList(b), tail))
  {
    var cl := CustomerList(b);
    forall c, rest | c in cl
      ensures Customers.Decode(Customers.Encode(c) + rest) == Some((c, rest))
    {
      Customers.RoundTrip(c, rest);
    }
    ListRoundTrip(cl, Customers.Encode, Customers.Decode, tail);
  }

  lemma TransfersRoundTrip(b: Bank)
    requires Storable(b)
    ensures DecodeList(EncodeList(b.transfers, Transfers.Encode), Transfers.Decode) == Some((b.transfers, []))
  {
    forall t, rest | t in b.transfers
      ensures Transfers.Decode(Transfers.Encode(t) + rest) == Some((t, rest))
    {
      Transfers.RoundTrip(t, rest);
    }
    var t3 := EncodeList(b.transfers, Transfers.Encode);
    assert t3 + [] == t3;
    ListRoundTrip(b.transfers, Transfers.Encode, Transfers.Decode, []);
  }
}
