/**
 * The marketplace (store.h): a catalogue keyed by item id, the registered
 * buyers and sellers keyed by id, and the purchase log, with the sale
 * workflow, the analytics queries and the persisted blob.
 */
module Stores {
  import opened Wrappers
  import opened Bytes
  import opened Ordering
  import opened Seqs
  import opened Clock
  import opened Items
  import opened Purchases
  import Buyers
  import Sellers

  datatype Store = Store(transactions: seq<Purchase>, items: map<int, Item>,
                         buyers: map<int, Buyers.Buyer>, sellers: map<int, Sellers.Seller>)

  /** The state before the blob is loaded. */
  function EmptyStore(): (r: Store)
    ensures r.transactions == [] && r.items == map[] && r.buyers == map[] && r.sellers == map[]
  {
    Store([], map[], map[], map[])
  }

  function ItemKey(i: Item): int {
    i.id
  }

  /** Every item is filed under its own id and no stock is negative. */
  predicate Valid(st: Store) {
    KeyedBy(st.items, ItemKey) && forall k :: k in st.items ==> st.items[k].stock >= 0
  }

  /** The catalogue in `std::map` iteration order (ascending id). */
  function ItemList(st: Store): (r: seq<Item>)
    ensures |r| == |st.items|
    ensures forall i :: i in r <==> i in st.items.Values
    ensures forall j :: 0 <= j < |r| ==> r[j] == st.items[SortedInts(st.items.Keys)[j]]
  {
    SortedIntValues(st.items);
    Values(st.items, SortedInts(st.items.Keys))
  }

  // ---- catalogue ----

  /** Inserts the item unless its id is taken; never overwrites. */
  function AddItem(st: Store, item: Item): (r: (bool, Store))
    ensures r.0 <==> item.id !in st.items
    ensures r.0 ==> r.1 == st.(items := st.items[item.id := item])
    ensures !r.0 ==> r.1 == st
  {
    if item.id !in st.items then (true, st.(items := st.items[item.id := item])) else (false, st)
  }

  lemma AddItemIdempotent(st: Store, item: Item)
    ensures AddItem(AddItem(st, item).1, item) == (false, AddItem(st, item).1)
  {
  }

  lemma AddItemPreservesValid(st: Store, item: Item)
    requires Valid(st) && item.stock >= 0
    ensures Valid(AddItem(st, item).1)
  {
  }

  /** The item filed under `itemId`, or none (a null `Item*` in the C++ code). */
  function FindItem(st: Store, itemId: int): (r: Option<Item>)
    ensures r.Some? <==> itemId in st.items
    ensures r.Some? ==> r.value == st.items[itemId]
  {
    if itemId in st.items then Some(st.items[itemId]) else None
  }

  // ---- sales ----

  /**
   * Accepts a pending purchase of an item that is in stock: one unit moves from
   * stock to sold and the purchase is logged (with its status unchanged).
   * Anything else is refused and changes nothing.
   */
  function ProcessTransaction(st: Store, t: Purchase): (r: (bool, Store))
    ensures r.0 <==> t.status == Pending && t.itemId in st.items && st.items[t.itemId].stock >= 1
    ensures !r.0 ==> r.1 == st
    ensures r.0 ==> r.1.transactions == st.transactions + [t]
    ensures r.1.(items := st.items, transactions := st.transactions) == st
    ensures r.1.items.Keys == st.items.Keys
    ensures forall k :: k in st.items && k != t.itemId ==> r.1.items[k] == st.items[k]
    ensures r.0 ==> var before := st.items[t.itemId];
                    var after := r.1.items[t.itemId];
                    && after.stock == before.stock - 1 && after.soldCount == before.soldCount + 1
                    && after.(stock := before.stock, soldCount := before.soldCount) == before
  {
    if t.status == Pending && t.itemId in st.items then
      var (ok, item) := DecreaseStock(st.items[t.itemId], 1);
      if ok then (true, st.(items := st.items[t.itemId := item], transactions := st.transactions + [t]))
      else (false, st)
    else (false, st)
  }

  lemma ProcessTransactionPreservesValid(st: Store, t: Purchase)
    requires Valid(st)
    ensures Valid(ProcessTransaction(st, t).1)
  {
  }

  function SoldCount(i: Item): int {
    i.soldCount
  }

  /** Units sold across the catalogue. */
  function TotalSold(items: map<int, Item>): int {
    SumOver(items, SortedInts(items.Keys), SoldCount)
  }

  /** Every accepted sale adds exactly one unit to the catalogue's sold total; a refusal adds none. */
  lemma ProcessTransactionSellsOne(st: Store, t: Purchase)
    ensures TotalSold(ProcessTransaction(st, t).1.items)
         == TotalSold(st.items) + (if ProcessTransaction(st, t).0 then 1 else 0)
  {
    var (ok, st') := ProcessTransaction(st, t);
    if ok {
      assert st'.items == st.items[t.itemId := st'.items[t.itemId]];
      SortedIntsDistinct(st.items.Keys);
      SumOverUpdate(st.items, SortedInts(st.items.Keys), t.itemId, st'.items[t.itemId], SoldCount);
    }
  }

  // ---- queries ----

  /** The logged purchases at most `days * 24` whole hours old, in log order. */
  function TransactionsInLastDays(st: Store, days: int, now: int): (r: seq<Purchase>)
    ensures forall t :: t in r <==> t in st.transactions && IsWithinDays(t, days, now)
    ensures forall t :: multiset(r)[t] == if IsWithinDays(t, days, now) then multiset(st.transactions)[t] else 0
    ensures Subsequence(r, st.transactions)
  {
    FilterIsSubsequence(st.transactions, (t: Purchase) => IsWithinDays(t, days, now));
    FilterCounts(st.transactions, (t: Purchase) => IsWithinDays(t, days, now));
    Filter(st.transactions, (t: Purchase) => IsWithinDays(t, days, now))
  }

  lemma TransactionsInLastDaysMonotone(st: Store, d1: int, d2: int, now: int)
    requires d1 <= d2
    ensures Subsequence(TransactionsInLastDays(st, d1, now), TransactionsInLastDays(st, d2, now))
  {
    FilterMonotone(st.transactions, (t: Purchase) => IsWithinDays(t, d1, now), (t: Purchase) => IsWithinDays(t, d2, now));
  }

  /**
   * `getPendingTransactions` selects the logged purchases whose status is PAID
   * (paid, awaiting completion), not PENDING; the model keeps that.
   */
  function PendingTransactions(st: Store): (r: seq<Purchase>)
    ensures forall t :: t in r <==> t in st.transactions && t.status == Paid
    ensures forall t :: multiset(r)[t] == if t.status == Paid then multiset(st.transactions)[t] else 0
    ensures Subsequence(r, st.transactions)
  {
    FilterIsSubsequence(st.transactions, (t: Purchase) => t.status == Paid);
    FilterCounts(st.transactions, (t: Purchase) => t.status == Paid);
    Filter(st.transactions, (t: Purchase) => t.status == Paid)
  }

  /** Every purchase `ProcessTransaction` accepts is PENDING, so a log built only by it has nothing PAID. */
  lemma ProcessedLogHasNoPaid(st: Store, t: Purchase)
    requires PendingTransactions(st) == []
    ensures PendingTransactions(ProcessTransaction(st, t).1) == []
  {
    FilterAppend(st.transactions, t, (x: Purchase) => x.status == Paid);
  }

  function SoldRank(i: Item): Rank {
    Rank(i.soldCount, 0)
  }

  /** The `count` best-selling items, best first (all of them when `count` is negative). */
  function MostSoldItems(st: Store, count: int): (r: seq<Item>)
    ensures |r| == (if 0 <= count < |st.items| then count else |st.items|)
    ensures multiset(r) <= multiset(ItemList(st))
    ensures forall i, j :: 0 <= i < j < |r| ==> r[j].soldCount <= r[i].soldCount
    ensures forall x, i :: x in multiset(ItemList(st)) - multiset(r) && 0 <= i < |r| ==> x.soldCount <= r[i].soldCount
  {
    var r := TopByRank(ItemList(st), SoldRank, count);
    SoldOrder(ItemList(st), r);
    r
  }

  /** Ordering by `SoldRank` is ordering by units sold. */
  lemma SoldOrder(all: seq<Item>, r: seq<Item>)
    requires SortedDesc(r, SoldRank)
    requires forall x, i :: x in multiset(all) - multiset(r) && 0 <= i < |r| ==> RankLe(SoldRank(x), SoldRank(r[i]))
    ensures forall i, j :: 0 <= i < j < |r| ==> r[j].soldCount <= r[i].soldCount
    ensures forall x, i :: x in multiset(all) - multiset(r) && 0 <= i < |r| ==> x.soldCount <= r[i].soldCount
  {
    forall i, j | 0 <= i < j < |r| ensures r[j].soldCount <= r[i].soldCount {
      assert RankLe(SoldRank(r[j]), SoldRank(r[i]));
    }
    forall x, i | x in multiset(all) - multiset(r) && 0 <= i < |r|
      ensures x.soldCount <= r[i].soldCount
    {
      assert RankLe(SoldRank(x), SoldRank(r[i]));
    }
  }

  /** A purchase at most 24 whole hours old by buyer `userId` (or sold by seller `userId`). */
  predicate TodayFor(t: Purchase, userId: int, isBuyer: bool, now: int) {
    WithinDay(now, t.timestamp) && (if isBuyer then t.buyerId == userId else t.sellerId == userId)
  }

  function CountTodayTransactions(st: Store, userId: int, isBuyer: bool, now: int): (r: nat)
    ensures r <= |st.transactions|
  {
    Count(st.transactions, (t: Purchase) => TodayFor(t, userId, isBuyer, now))
  }

  /** An accepted sale raises a user's count today exactly when it is that user's and at most 24 hours old. */
  lemma CountTodayAfterSale(st: Store, t: Purchase, userId: int, isBuyer: bool, now: int)
    requires ProcessTransaction(st, t).0
    ensures CountTodayTransactions(ProcessTransaction(st, t).1, userId, isBuyer, now)
         == CountTodayTransactions(st, userId, isBuyer, now) + (if TodayFor(t, userId, isBuyer, now) then 1 else 0)
  {
    CountAppend(st.transactions, t, (x: Purchase) => TodayFor(x, userId, isBuyer, now));
  }

  /**
   * The first position holding the largest positive score, scanning left to
   * right and replacing the best only on a strictly larger score; none when
   * every score is zero.
   */
  method FirstMax(scores: seq<nat>) returns (best: Option<nat>)
    ensures best.None? <==> forall i :: 0 <= i < |scores| ==> scores[i] == 0
    ensures best.Some? ==> var b := best.value;
              && b < |scores| && scores[b] > 0
              && (forall i :: 0 <= i < |scores| ==> scores[i] <= scores[b])
              && (forall i :: 0 <= i < b ==> scores[i] < scores[b])
  {
    best := None;
    var max := 0;
    var i := 0;
    while i < |scores|
      invariant 0 <= i <= |scores|
      invariant best.None? ==> max == 0 && forall j :: 0 <= j < i ==> scores[j] == 0
      invariant best.Some? ==> best.value < i && max == scores[best.value] > 0
      invariant forall j :: 0 <= j < i ==> scores[j] <= max
      invariant best.Some? ==> forall j :: 0 <= j < best.value ==> scores[j] < max
    {
      if scores[i] > max {
        max := scores[i];
        best := Some(i);
      }
      i := i + 1;
    }
  }

  function BuyerCount(st: Store, k: int, now: int): nat
    requires k in st.buyers
  {
    CountTodayTransactions(st, st.buyers[k].user.id, true, now)
  }

  function SellerCount(st: Store, k: int, now: int): nat
    requires k in st.sellers
  {
    CountTodayTransactions(st, st.sellers[k].user.id, false, now)
  }

  /**
   * The key, in ascending key order, of the first entry with the largest
   * positive score; none when every score is zero.
   */
  method TopKey<V>(m: map<int, V>, score: int -> nat) returns (top: Option<int>)
    ensures top.None? <==> forall k :: k in m ==> score(k) == 0
    ensures top.Some? ==> var t := top.value;
              && t in m && score(t) > 0
              && (forall k :: k in m ==> score(k) <= score(t))
              && (forall k :: k in m && k < t ==> score(k) < score(t))
  {
    var keys := SortedInts(m.Keys);
    var scores := seq(|keys|, i requires 0 <= i < |keys| => score(keys[i]));
    var best := FirstMax(scores);
    if best.None? {
      top := None;
      NoneScores(keys, m.Keys, score, scores);
    } else {
      top := Some(keys[best.value]);
      BestScore(keys, m.Keys, score, scores, best.value);
    }
  }

  /** All-zero scores listed under every key mean every key scores zero. */
  lemma NoneScores(keys: seq<int>, ks: set<int>, score: int -> nat, scores: seq<nat>)
    requires |keys| == |scores| && forall i :: 0 <= i < |keys| ==> scores[i] == score(keys[i])
    requires forall x :: x in keys <==> x in ks
    requires forall i :: 0 <= i < |scores| ==> scores[i] == 0
    ensures forall k :: k in ks ==> score(k) == 0
  {
    forall k | k in ks ensures score(k) == 0 {
      assert k in keys;
      var i :| 0 <= i < |keys| && keys[i] == k;
      assert scores[i] == score(k);
    }
  }

  /** The first maximum of scores listed in ascending key order is the smallest key with the top score. */
  lemma BestScore(keys: seq<int>, ks: set<int>, score: int -> nat, scores: seq<nat>, b: nat)
    requires |keys| == |scores| && forall i :: 0 <= i < |keys| ==> scores[i] == score(keys[i])
    requires forall x :: x in keys <==> x in ks
    requires forall i, j :: 0 <= i < j < |keys| ==> keys[i] < keys[j]
    requires b < |scores| && scores[b] > 0
    requires forall i :: 0 <= i < |scores| ==> scores[i] <= scores[b]
    requires forall i :: 0 <= i < b ==> scores[i] < scores[b]
    ensures keys[b] in ks && score(keys[b]) > 0
    ensures forall k :: k in ks ==> score(k) <= score(keys[b])
    ensures forall k :: k in ks && k < keys[b] ==> score(k) < score(keys[b])
  {
    var t := keys[b];
    assert t in keys;
    assert scores[b] == score(t);
    forall k | k in ks ensures score(k) <= score(t) && (k < t ==> score(k) < score(t)) {
      assert k in keys;
      var i :| 0 <= i < |keys| && keys[i] == k;
      assert scores[i] == score(k);
      if k < t {
        assert i < b;
      }
    }
  }

  function BuyerScore(st: Store, now: int): int -> nat {
    k => if k in st.buyers then BuyerCount(st, k, now) else 0
  }

  function SellerScore(st: Store, now: int): int -> nat {
    k => if k in st.sellers then SellerCount(st, k, now) else 0
  }

  /**
   * `getMostActiveUsersToday`: the key of the buyer, and of the seller, with
   * the most purchases today (counted by the registered user's own id), the
   * smallest key winning a tie; none when nobody has a purchase today.
   */
  method MostActiveUsersToday(st: Store, now: int) returns (topBuyer: Option<int>, topSeller: Option<int>)
    ensures topBuyer.None? <==> forall k :: k in st.buyers ==> BuyerCount(st, k, now) == 0
    ensures topBuyer.Some? ==> var b := topBuyer.value;
              && b in st.buyers && BuyerCount(st, b, now) > 0
              && (forall k :: k in st.buyers ==> BuyerCount(st, k, now) <= BuyerCount(st, b, now))
              && (forall k :: k in st.buyers && k < b ==> BuyerCount(st, k, now) < BuyerCount(st, b, now))
    ensures topSeller.None? <==> forall k :: k in st.sellers ==> SellerCount(st, k, now) == 0
    ensures topSeller.Some? ==> var s := topSeller.value;
              && s in st.sellers && SellerCount(st, s, now) > 0
              && (forall k :: k in st.sellers ==> SellerCount(st, k, now) <= SellerCount(st, s, now))
              && (forall k :: k in st.sellers && k < s ==> SellerCount(st, k, now) < SellerCount(st, s, now))
  {
    var bs := BuyerScore(st, now);
    topBuyer := TopKey(st.buyers, bs);
    assert forall k :: k in st.buyers ==> bs(k) == BuyerCount(st, k, now);
    var ss := SellerScore(st, now);
    topSeller := TopKey(st.sellers, ss);
    assert forall k :: k in st.sellers ==> ss(k) == SellerCount(st, k, now);
  }

  // ---- persisted blob ----

  /** What the blob can carry unchanged: only the catalogue and the log are saved. */
  predicate Storable(st: Store) {
    && KeyedBy(st.items, ItemKey)
    && |st.items| < 2 * Int64Bound && |st.transactions| < 2 * Int64Bound
    && (forall k :: k in st.items ==> Items.Storable(st.items[k]))
    && (forall t :: t in st.transactions ==> Purchases.Storable(t))
  }

  /** The count-prefixed items in id order, then the count-prefixed purchase log. */
  function Save(st: Store): seq<byte> {
    EncodeList(ItemList(st), Items.Encode) + EncodeList(st.transactions, Purchases.Encode)
  }

  /** A store hydrated from `blob`: items filed under their own ids, the log in order, nobody registered. */
  function Load(blob: seq<byte>): Option<Store> {
    var items :- DecodeList(blob, Items.Decode);
    var log :- DecodeList(items.1, Purchases.Decode);
    Some(Store(log.0, Collect(map[], items.0, ItemKey), map[], map[]))
  }

  /** The catalogue and the log survive a save and a load; buyers and sellers are not persisted. */
  lemma SaveLoadRoundTrip(st: Store)
    requires Storable(st)
    ensures Load(Save(st)) == Some(st.(buyers := map[], sellers := map[]))
  {
    var il := ItemList(st);
    var t2 := EncodeList(st.transactions, Purchases.Encode);
    ItemsRoundTrip(st, t2);
    assert DecodeList(Save(st), Items.Decode) == Some((il, t2));
    LogRoundTrip(st);
    assert DecodeList(t2, Purchases.Decode) == Some((st.transactions, []));
    CollectSortedIntValues(st.items, ItemKey);
    assert Collect(map[], il, ItemKey) == st.items;
  }

  lemma ItemsRoundTrip(st: Store, tail: seq<byte>)
    requires Storable(st)
    ensures DecodeList(EncodeList(ItemList(st), Items.Encode) + tail, Items.Decode) == Some((ItemList(st), tail))
  {
    var il := ItemList(st);
    forall i, rest | i in il
      ensures Items.Decode(Items.Encode(i) + rest) == Some((i, rest))
    {
      Items.RoundTrip(i, rest);
    }
    ListRoundTrip(il, Items.Encode, Items.Decode, tail);
  }

  lemma LogRoundTrip(st: Store)
    requires Storable(st)
    ensures DecodeList(EncodeList(st.transactions, Purchases.Encode), Purchases.Decode) == Some((st.transactions, []))
  {
    forall t, rest | t in st.transactions
      ensures Purchases.Decode(Purchases.Encode(t) + rest) == Some((t, rest))
    {
      Purchases.RoundTrip(t, rest);
    }
    var t2 := EncodeList(st.transactions, Purchases.Encode);
    assert t2 + [] == t2;
    ListRoundTrip(st.transactions, Purchases.Encode, Purchases.Decode, []);
  }
}
