/** A store purchase record and its status (transaction.h). */
module Purchases {
  import opened Wrappers
  import opened Bytes
  import Clock

  datatype Status = Pending | Paid | Completed | Canceled

  /** The enumerator's declaration position, which is what the codec writes. */
  function Ordinal(st: Status): (n: int)
    ensures 0 <= n < 4
  {
    match st
    case Pending => 0
    case Paid => 1
    case Completed => 2
    case Canceled => 3
  }

  /** The status with ordinal `n`; ordinals outside 0..3 name no status. */
  function StatusOf(n: int): (r: Option<Status>)
    ensures r.Some? <==> 0 <= n < 4
    ensures r.Some? ==> Ordinal(r.value) == n
  {
    if n == 0 then Some(Pending)
    else if n == 1 then Some(Paid)
    else if n == 2 then Some(Completed)
    else if n == 3 then Some(Canceled)
    else None
  }

  lemma StatusOrdinalRoundTrip(st: Status)
    ensures StatusOf(Ordinal(st)) == Some(st)
  {
  }

  /** `amount` is in cents; `timestamp` is in clock ticks. */
  datatype Purchase = Purchase(id: int, buyerId: int, sellerId: int, itemId: int, amount: int, status: Status, timestamp: int)

  /** Both constructors start a purchase as PENDING, stamped now. */
  function NewPurchase(id: int, buyerId: int, sellerId: int, itemId: int, amount: int, now: int): (r: Purchase)
    ensures r.status == Pending && r.timestamp == now
    ensures r.id == id && r.buyerId == buyerId && r.sellerId == sellerId && r.itemId == itemId && r.amount == amount
  {
    Purchase(id, buyerId, sellerId, itemId, amount, Pending, now)
  }

  /** Any status may follow any other: the setter checks no lifecycle. */
  function SetStatus(t: Purchase, st: Status): (r: Purchase)
    ensures r.status == st
    ensures r.(status := t.status) == t
  {
    t.(status := st)
  }

  /** Setting the old status back restores the record exactly. */
  lemma SetStatusUndo(t: Purchase, st: Status)
    ensures SetStatus(SetStatus(t, st), t.status) == t
  {
  }

  predicate IsWithinDays(t: Purchase, days: int, now: int) {
    Clock.WithinDays(now, t.timestamp, days)
  }

  // ---- record codec ----

  predicate Storable(t: Purchase) {
    && IsInt32(t.id) && IsInt32(t.buyerId) && IsInt32(t.sellerId) && IsInt32(t.itemId)
    && IsInt64(t.amount) && IsInt64(t.timestamp)
  }

  /** Four int32 ids, the 8-byte amount, the int32 status ordinal and the 8-byte tick count. */
  function Encode(t: Purchase): (r: seq<byte>)
    ensures |r| == 36
  {
    EncodeI32(t.id) + EncodeI32(t.buyerId) + EncodeI32(t.sellerId) + EncodeI32(t.itemId)
    + EncodeI64(t.amount) + EncodeI32(Ordinal(t.status)) + EncodeI64(t.timestamp)
  }

  /** Rejects a short buffer and a status ordinal outside 0..3. */
  function Decode(s: seq<byte>): Option<(Purchase, seq<byte>)>
  {
    var id :- DecodeI32(s);
    var buyer :- DecodeI32(id.1);
    var seller :- DecodeI32(buyer.1);
    var item :- DecodeI32(seller.1);
    var amount :- DecodeI64(item.1);
    var ord :- DecodeI32(amount.1);
    var status :- StatusOf(ord.0);
    var time :- DecodeI64(ord.1);
    Some((Purchase(id.0, buyer.0, seller.0, item.0, amount.0, status, time.0), time.1))
  }

  lemma RoundTrip(t: Purchase, rest: seq<byte>)
    requires Storable(t)
    ensures Decode(Encode(t) + rest) == Some((t, rest))
  {
    var t6 := EncodeI64(t.timestamp) + rest;
    var t5 := EncodeI32(Ordinal(t.status)) + t6;
    var t4 := EncodeI64(t.amount) + t5;
    var t3 := EncodeI32(t.itemId) + t4;
    var t2 := EncodeI32(t.sellerId) + t3;
    var t1 := EncodeI32(t.buyerId) + t2;
    assert Encode(t) + rest == EncodeI32(t.id) + t1;
    I32RoundTrip(t.id, t1);
    I32RoundTrip(t.buyerId, t2);
    I32RoundTrip(t.sellerId, t3);
    I32RoundTrip(t.itemId, t4);
    I64RoundTrip(t.amount, t5);
    I32RoundTrip(Ordinal(t.status), t6);
    I64RoundTrip(t.timestamp, rest);
  }
}
