/** A catalog entry and its stock bookkeeping (item.h). */
module Items {
  import opened Wrappers
  import opened Bytes

  /** `price` is in cents; `lastRestockTime` is in clock ticks. */
  datatype Item = Item(id: int, name: string, price: int, stock: int, soldCount: int, lastRestockTime: int)

  /** `Item(id, name, price, stock)`: nothing sold yet, restocked now. */
  function NewItem(id: int, name: string, price: int, stock: int, now: int): (r: Item)
    ensures r.soldCount == 0
    ensures r.stock + r.soldCount == stock
    ensures r.id == id && r.name == name && r.price == price && r.lastRestockTime == now
  {
    Item(id, name, price, stock, 0, now)
  }

  /** Units ever received: what is on the shelf plus what has been sold. */
  function Units(i: Item): int {
    i.stock + i.soldCount
  }

  function SetPrice(i: Item, price: int): (r: Item)
    ensures r.price == price
    ensures r.(price := i.price) == i
  {
    i.(price := price)
  }

  /** Overwrites the stock and refreshes the restock time; the sold count stays. */
  function SetStock(i: Item, stock: int, now: int): (r: Item)
    ensures r.stock == stock && r.lastRestockTime == now
    ensures r.(stock := i.stock, lastRestockTime := i.lastRestockTime) == i
  {
    i.(stock := stock, lastRestockTime := now)
  }

  /**
   * Sells `amount` units if that many are in stock. The flag reports success;
   * on failure the item is returned unchanged.
   */
  function DecreaseStock(i: Item, amount: int): (r: (bool, Item))
    ensures r.0 <==> i.stock >= amount
    ensures r.0 ==> r.1.stock == i.stock - amount && r.1.soldCount == i.soldCount + amount
    ensures r.0 ==> r.1.(stock := i.stock, soldCount := i.soldCount) == i
    ensures !r.0 ==> r.1 == i
  {
    if i.stock >= amount then (true, i.(stock := i.stock - amount, soldCount := i.soldCount + amount))
    else (false, i)
  }

  /** A sale of a non-negative amount keeps stock non-negative and moves units from stock to sold. */
  lemma DecreaseStockConserves(i: Item, amount: int)
    requires amount >= 0 && i.stock >= 0
    ensures DecreaseStock(i, amount).1.stock >= 0
    ensures Units(DecreaseStock(i, amount).1) == Units(i)
    ensures DecreaseStock(i, amount).1.soldCount >= i.soldCount
  {
  }

  /** Restock: adds `amount` and refreshes the restock time; the sold count stays. */
  function IncreaseStock(i: Item, amount: int, now: int): (r: Item)
    ensures r.stock == i.stock + amount && r.lastRestockTime == now
    ensures r.soldCount == i.soldCount
    ensures Units(r) == Units(i) + amount
    ensures r.(stock := i.stock, lastRestockTime := i.lastRestockTime) == i
  {
    i.(stock := i.stock + amount, lastRestockTime := now)
  }

  // ---- record codec ----

  /** Every field fits its on-disk width and the name survives the NUL-terminated read. */
  predicate Storable(i: Item) {
    && IsInt32(i.id) && Bytes.Storable(i.name) && IsInt64(i.price)
    && IsInt32(i.stock) && IsInt32(i.soldCount) && IsInt64(i.lastRestockTime)
  }

  /** id, name, price, stock, soldCount, restock ticks. */
  function Encode(i: Item): (r: seq<byte>)
    ensures |r| == 4 + 4 + |i.name| + 8 + 4 + 4 + 8
  {
    EncodeI32(i.id) + EncodeString(i.name) + EncodeI64(i.price)
    + EncodeI32(i.stock) + EncodeI32(i.soldCount) + EncodeI64(i.lastRestockTime)
  }

  function Decode(s: seq<byte>): Option<(Item, seq<byte>)>
  {
    var id :- DecodeI32(s);
    var name :- DecodeString(id.1);
    var price :- DecodeI64(name.1);
    var stock :- DecodeI32(price.1);
    var sold :- DecodeI32(stock.1);
    var time :- DecodeI64(sold.1);
    Some((Item(id.0, name.0, price.0, stock.0, sold.0, time.0), time.1))
  }

  lemma RoundTrip(i: Item, rest: seq<byte>)
    requires Storable(i)
    ensures Decode(Encode(i) + rest) == Some((i, rest))
  {
    var t5 := EncodeI64(i.lastRestockTime) + rest;
    var t4 := EncodeI32(i.soldCount) + t5;
    var t3 := EncodeI32(i.stock) + t4;
    var t2 := EncodeI64(i.price) + t3;
    var t1 := EncodeString(i.name) + t2;
    assert Encode(i) + rest == EncodeI32(i.id) + t1;
    I32RoundTrip(i.id, t1);
    StringRoundTrip(i.name, t2);
    I64RoundTrip(i.price, t3);
    I32RoundTrip(i.stock, t4);
    I32RoundTrip(i.soldCount, t5);
    I64RoundTrip(i.lastRestockTime, rest);
  }
}
