/**
 * A seller (seller.h, seller.cpp): a user with an insertion-ordered catalogue
 * looked up by item id (first match wins), a purchase log, and the monthly
 * analytics over that log.
 */
module Sellers {
  import opened Wrappers
  import opened Ordering
  import opened Seqs
  import opened Clock
  import opened Items
  import opened Purchases
  import opened Users

  datatype Seller = Seller(user: User, items: seq<Item>, purchases: seq<Purchase>)

  function NewSeller(id: int, name: string): (r: Seller)
    ensures r.user == NewUser(id, name) && r.items == [] && r.purchases == []
  {
    Seller(NewUser(id, name), [], [])
  }

  // ---- catalogue ----

  /** `std::find_if` on the id: the first matching position, or `|items|` when none matches. */
  function IndexOfItem(items: seq<Item>, itemId: int): (k: nat)
    ensures k <= |items|
    ensures forall j :: 0 <= j < k ==> items[j].id != itemId
    ensures k < |items| ==> items[k].id == itemId
  {
    if items == [] || items[0].id == itemId then 0 else 1 + IndexOfItem(items[1..], itemId)
  }

  predicate HasItem(items: seq<Item>, itemId: int) {
    exists j :: 0 <= j < |items| && items[j].id == itemId
  }

  lemma IndexOfItemFound(items: seq<Item>, itemId: int)
    ensures IndexOfItem(items, itemId) < |items| <==> HasItem(items, itemId)
  {
  }

  /** No two catalogue entries share an id; `AddItem` is the only way in, and it keeps this. */
  predicate UniqueIds(items: seq<Item>) {
    forall i, j :: 0 <= i < j < |items| ==> items[i].id != items[j].id
  }

  /** Appends `item` unless an entry with its id is already listed. */
  function AddItem(s: Seller, item: Item): (r: (bool, Seller))
    ensures r.0 <==> !HasItem(s.items, item.id)
    ensures r.0 ==> r.1 == s.(items := s.items + [item])
    ensures !r.0 ==> r.1 == s
  {
    IndexOfItemFound(s.items, item.id);
    if IndexOfItem(s.items, item.id) == |s.items| then (true, s.(items := s.items + [item]))
    else (false, s)
  }

  lemma AddItemKeepsIdsUnique(s: Seller, item: Item)
    requires UniqueIds(s.items)
    ensures UniqueIds(AddItem(s, item).1.items)
  {
  }

  /** Removes the first entry with `itemId`; the others keep their order. */
  function DeleteItem(s: Seller, itemId: int): (r: (bool, Seller))
    ensures r.0 <==> HasItem(s.items, itemId)
    ensures !r.0 ==> r.1 == s
    ensures r.1.(items := s.items) == s
    ensures r.0 ==> |r.1.items| == |s.items| - 1
    ensures r.0 ==> exists k :: 0 <= k < |s.items| && s.items[k].id == itemId
                       && (forall j :: 0 <= j < k ==> s.items[j].id != itemId)
                       && r.1.items == s.items[..k] + s.items[k + 1..]
  {
    IndexOfItemFound(s.items, itemId);
    var k := IndexOfItem(s.items, itemId);
    if k < |s.items| then (true, s.(items := s.items[..k] + s.items[k + 1..]))
    else (false, s)
  }

  /** With unique ids, deleting removes exactly the entry with that id. */
  lemma DeleteItemRemovesOnlyThatId(s: Seller, itemId: int)
    requires UniqueIds(s.items)
    ensures forall x :: x in DeleteItem(s, itemId).1.items <==> x in s.items && x.id != itemId
    ensures UniqueIds(DeleteItem(s, itemId).1.items)
  {
    var k := IndexOfItem(s.items, itemId);
    IndexOfItemFound(s.items, itemId);
    if k < |s.items| {
      RemoveAt(s.items, k);
    } else {
      assert forall x :: x in s.items ==> x.id != itemId;
    }
  }

  lemma RemoveAt(items: seq<Item>, k: nat)
    requires k < |items| && UniqueIds(items)
    ensures forall x :: x in items[..k] + items[k + 1..] <==> x in items && x.id != items[k].id
    ensures UniqueIds(items[..k] + items[k + 1..])
  {
    var r := items[..k] + items[k + 1..];
    assert forall j :: 0 <= j < |r| ==> r[j] == items[if j < k then j else j + 1];
    forall x | x in r
      ensures x in items && x.id != items[k].id
    {
      var j :| 0 <= j < |r| && r[j] == x;
      var at := if j < k then j else j + 1;
      assert items[at] == x && at != k;
    }
    forall x | x in items && x.id != items[k].id
      ensures x in r
    {
      var j :| 0 <= j < |items| && items[j] == x;
      assert j != k;
      assert r[if j < k then j else j - 1] == x;
    }
  }

  lemma {:induction false} IndexOfItemIs(items: seq<Item>, itemId: int, k: nat)
    requires k < |items| && items[k].id == itemId
    requires forall j :: 0 <= j < k ==> items[j].id != itemId
    ensures IndexOfItem(items, itemId) == k
  {
    if k > 0 {
      IndexOfItemIs(items[1..], itemId, k - 1);
    }
  }

  /** Deleting a freshly added item gives back the seller it was added to. */
  lemma DeleteAfterAdd(s: Seller, item: Item)
    requires AddItem(s, item).0
    ensures DeleteItem(AddItem(s, item).1, item.id) == (true, s)
  {
    var items := s.items + [item];
    IndexOfItemIs(items, item.id, |s.items|);
    assert items[..|s.items|] + items[|s.items| + 1..] == s.items;
  }

  /** Adds `quantity` to the first entry with `itemId`, stamping the restock time. */
  function RestockItem(s: Seller, itemId: int, quantity: int, now: int): (r: (bool, Seller))
    ensures r.0 <==> HasItem(s.items, itemId)
    ensures !r.0 ==> r.1 == s
    ensures r.1.(items := s.items) == s && |r.1.items| == |s.items|
    ensures r.0 ==> var k := IndexOfItem(s.items, itemId);
                    && r.1.items[k].stock == s.items[k].stock + quantity
                    && Units(r.1.items[k]) == Units(s.items[k]) + quantity
                    && r.1.items[k].lastRestockTime == now
                    && r.1.items[k].(stock := s.items[k].stock, lastRestockTime := s.items[k].lastRestockTime) == s.items[k]
                    && forall j :: 0 <= j < |s.items| && j != k ==> r.1.items[j] == s.items[j]
  {
    IndexOfItemFound(s.items, itemId);
    var k := IndexOfItem(s.items, itemId);
    if k < |s.items| then (true, s.(items := s.items[k := IncreaseStock(s.items[k], quantity, now)]))
    else (false, s)
  }

  /** Reprices the first entry with `itemId`; nothing else about it changes. */
  function SetItemPrice(s: Seller, itemId: int, price: int): (r: (bool, Seller))
    ensures r.0 <==> HasItem(s.items, itemId)
    ensures !r.0 ==> r.1 == s
    ensures r.1.(items := s.items) == s && |r.1.items| == |s.items|
    ensures r.0 ==> var k := IndexOfItem(s.items, itemId);
                    && r.1.items[k].price == price
                    && r.1.items[k].(price := s.items[k].price) == s.items[k]
                    && forall j :: 0 <= j < |s.items| && j != k ==> r.1.items[j] == s.items[j]
  {
    IndexOfItemFound(s.items, itemId);
    var k := IndexOfItem(s.items, itemId);
    if k < |s.items| then (true, s.(items := s.items[k := Items.SetPrice(s.items[k], price)]))
    else (false, s)
  }

  /** Appends a purchase to the log, unconditionally. */
  function AddTransaction(s: Seller, p: Purchase): (r: Seller)
    ensures r.purchases == s.purchases + [p]
    ensures r.(purchases := s.purchases) == s
  {
    s.(purchases := s.purchases + [p])
  }

  // ---- analytics ----

  /** A completed sale of `itemId` at most 720 whole hours old. */
  predicate MonthlySale(p: Purchase, itemId: int, now: int) {
    HoursSince(now, p.timestamp) <= 30 * 24 && p.itemId == itemId && p.status == Completed
  }

  function MonthlyItemSales(s: Seller, itemId: int, now: int): (r: nat)
    ensures r <= |s.purchases|
  {
    Count(s.purchases, (p: Purchase) => MonthlySale(p, itemId, now))
  }

  /** Logging a purchase adds one to the item's monthly sales exactly when it is a qualifying sale of that item. */
  lemma MonthlyItemSalesAfterAdd(s: Seller, p: Purchase, itemId: int, now: int)
    ensures MonthlyItemSales(AddTransaction(s, p), itemId, now)
         == MonthlyItemSales(s, itemId, now) + (if MonthlySale(p, itemId, now) then 1 else 0)
  {
    CountAppend(s.purchases, p, (q: Purchase) => MonthlySale(q, itemId, now));
  }

  /** Only completed sales count: a log without them scores every item zero. */
  lemma MonthlyItemSalesOnlyCompleted(s: Seller, itemId: int, now: int)
    requires forall p :: p in s.purchases ==> p.status != Completed
    ensures MonthlyItemSales(s, itemId, now) == 0
  {
    var f := Filter(s.purchases, (p: Purchase) => MonthlySale(p, itemId, now));
    if f != [] {
      assert f[0] in s.purchases;
    }
  }

  function SalesRank(s: Seller, now: int): Item -> Rank {
    (i: Item) => Rank(MonthlyItemSales(s, i.id, now), 0)
  }

  /** The whole catalogue, best monthly seller first. */
  function MonthlyPopularItems(s: Seller, now: int): (r: seq<Item>)
    ensures multiset(r) == multiset(s.items)
    ensures forall i, j :: 0 <= i < j < |r| ==>
              MonthlyItemSales(s, r[j].id, now) <= MonthlyItemSales(s, r[i].id, now)
  {
    var rank := SalesRank(s, now);
    var r := SortDesc(s.items, rank);
    forall i, j | 0 <= i < j < |r| ensures MonthlyItemSales(s, r[j].id, now) <= MonthlyItemSales(s, r[i].id, now) {
      assert RankLe(rank(r[j]), rank(r[i]));
    }
    r
  }

  /** A completed purchase by `buyerId`. */
  predicate CompletedBy(p: Purchase, buyerId: int) {
    p.status == Completed && p.buyerId == buyerId
  }

  function CompletedCount(s: Seller, buyerId: int): nat {
    Count(s.purchases, (p: Purchase) => CompletedBy(p, buyerId))
  }

  function CompletedTotal(s: Seller, buyerId: int): int {
    SumOf(Filter(s.purchases, (p: Purchase) => CompletedBy(p, buyerId)), (p: Purchase) => p.amount)
  }

  /** The buyers with at least one completed purchase. */
  function CompletedBuyers(s: Seller): (r: set<int>)
    ensures forall b :: b in r <==> exists p :: p in s.purchases && CompletedBy(p, b)
  {
    set p | p in s.purchases && p.status == Completed :: p.buyerId
  }

  function LoyaltyRank(s: Seller): int -> Rank {
    (b: int) => Rank(CompletedCount(s, b), CompletedTotal(s, b))
  }

  /**
   * Every buyer with a completed purchase, once, most completed purchases first
   * and, among equals, the larger completed total first.
   */
  function LoyalCustomers(s: Seller): (r: seq<int>)
    ensures forall b :: multiset(r)[b] == (if exists p :: p in s.purchases && CompletedBy(p, b) then 1 else 0)
    ensures forall i, j :: 0 <= i < j < |r| ==>
              || CompletedCount(s, r[j]) < CompletedCount(s, r[i])
              || (CompletedCount(s, r[j]) == CompletedCount(s, r[i]) && CompletedTotal(s, r[j]) <= CompletedTotal(s, r[i]))
  {
    var keys := SortedInts(CompletedBuyers(s));
    var rank := LoyaltyRank(s);
    var r := SortDesc(keys, rank);
    SortedIntsOnce(CompletedBuyers(s));
    forall i, j | 0 <= i < j < |r|
      ensures || CompletedCount(s, r[j]) < CompletedCount(s, r[i])
              || (CompletedCount(s, r[j]) == CompletedCount(s, r[i]) && CompletedTotal(s, r[j]) <= CompletedTotal(s, r[i]))
    {
      assert RankLe(rank(r[j]), rank(r[i]));
    }
    r
  }

  /** Everyone listed really has completed purchases: a positive count. */
  lemma LoyalCustomersHavePurchases(s: Seller)
    ensures forall b :: b in LoyalCustomers(s) ==> CompletedCount(s, b) >= 1
  {
    forall b | b in LoyalCustomers(s)
      ensures CompletedCount(s, b) >= 1
    {
      assert multiset(LoyalCustomers(s))[b] > 0;
      var p :| p in s.purchases && CompletedBy(p, b);
      assert p in Filter(s.purchases, (q: Purchase) => CompletedBy(q, b));
    }
  }

  // ---- description ----

  const ItemsTag := "Total Items: "
  const TransactionsTag := "Total Transactions: "

  /** One "<tag><count>" line of the description. */
  function CountLine(tag: string, n: nat): string {
    tag + NatToString(n)
  }

  /** `getInfo`: the user line, then the catalogue size and the log size on lines of their own. */
  function Info(s: Seller): string {
    Users.Info(s.user) + ['\n'] + CountLine(ItemsTag, |s.items|)
    + ['\n'] + CountLine(TransactionsTag, |s.purchases|)
  }

  /** The position of the last `c` in `s`, if any. */
  function LastIndexOf(s: string, c: char): (r: Option<nat>)
    ensures r.Some? ==> r.value < |s| && s[r.value] == c && c !in s[r.value + 1..]
    ensures r.None? ==> c !in s
  {
    if s == [] then None
    else if s[|s| - 1] == c then Some(|s| - 1)
    else
      var r := LastIndexOf(s[..|s| - 1], c);
      assert s == s[..|s| - 1] + [s[|s| - 1]];
      r
  }

  lemma {:induction false} LastIndexOfAppend(a: string, c: char, b: string)
    requires c !in b
    ensures LastIndexOf(a + [c] + b, c) == Some(|a|)
  {
    var s := a + [c] + b;
    if b != [] {
      var b' := b[..|b| - 1];
      assert s[|s| - 1] == b[|b| - 1];
      assert s[..|s| - 1] == a + [c] + b';
      LastIndexOfAppend(a, c, b');
    }
  }

  /** Reads "<tag><number>". */
  function ParseLine(line: string, tag: string): (r: Option<int>)
    ensures r.Some? ==> |line| > |tag|
  {
    if |line| < |tag| || line[..|tag|] != tag then None else ParseInt(line[|tag|..])
  }

  lemma ParseLineRoundTrip(tag: string, n: nat)
    ensures ParseLine(CountLine(tag, n), tag) == Some(n)
  {
    var line := CountLine(tag, n);
    assert line[..|tag|] == tag && line[|tag|..] == NatToString(n);
    IntToStringRoundTrip(n);
  }

  /** Splits a description into the user line and the two counts, reading from the end. */
  function ParseInfo(s: string): (r: Option<(string, int, int)>)
  {
    var k2 :- LastIndexOf(s, '\n');
    var head := s[..k2];
    var k1 :- LastIndexOf(head, '\n');
    var transactions :- ParseLine(s[k2 + 1..], TransactionsTag);
    var items :- ParseLine(head[k1 + 1..], ItemsTag);
    Some((head[..k1], items, transactions))
  }

  /** The description gives back the user line and both counts, whatever the seller's name. */
  lemma InfoRoundTrip(s: Seller)
    ensures ParseInfo(Info(s)) == Some((Users.Info(s.user), |s.items|, |s.purchases|))
  {
    var line1, line2 := CountLine(ItemsTag, |s.items|), CountLine(TransactionsTag, |s.purchases|);
    ParseLineRoundTrip(ItemsTag, |s.items|);
    ParseLineRoundTrip(TransactionsTag, |s.purchases|);
    NoNewline(ItemsTag, |s.items|);
    NoNewline(TransactionsTag, |s.purchases|);
    SplitInfo(Users.Info(s.user), line1, line2);
  }

  lemma NoNewline(tag: string, n: nat)
    requires '\n' !in tag
    ensures '\n' !in CountLine(tag, n)
  {
    var d := NatToString(n);
    assert forall i :: 0 <= i < |d| ==> d[i] != '\n';
  }

  /** Cutting at the last newline recovers both sides when the right side has none. */
  lemma SplitLast(a: string, b: string)
    requires '\n' !in b
    ensures LastIndexOf(a + ['\n'] + b, '\n') == Some(|a|)
    ensures (a + ['\n'] + b)[..|a|] == a && (a + ['\n'] + b)[|a| + 1..] == b
  {
    LastIndexOfAppend(a, '\n', b);
  }

  lemma SplitInfo(u: string, line1: string, line2: string)
    requires '\n' !in line1 && '\n' !in line2
    requires ParseLine(line1, ItemsTag).Some? && ParseLine(line2, TransactionsTag).Some?
    ensures ParseInfo(u + ['\n'] + line1 + ['\n'] + line2)
         == Some((u, ParseLine(line1, ItemsTag).value, ParseLine(line2, TransactionsTag).value))
  {
    var head := u + ['\n'] + line1;
    SplitLast(head, line2);
    SplitLast(u, line1);
  }
}
