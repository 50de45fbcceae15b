/** A bank transfer record (bank_transaction.h). */
module Transfers {
  import opened Wrappers
  import opened Bytes

  /** `amount` is in cents; `timestamp` is in clock ticks. */
  datatype Transfer = Transfer(id: int, fromAccount: string, toAccount: string, amount: int, timestamp: int, description: string)

  function NewTransfer(id: int, fromAccount: string, toAccount: string, amount: int, description: string, now: int): (r: Transfer)
    ensures r.timestamp == now
    ensures r.id == id && r.fromAccount == fromAccount && r.toAccount == toAccount
    ensures r.amount == amount && r.description == description
  {
    Transfer(id, fromAccount, toAccount, amount, now, description)
  }

  // ---- record codec ----

  predicate Storable(t: Transfer) {
    && IsInt32(t.id) && Bytes.Storable(t.fromAccount) && Bytes.Storable(t.toAccount)
    && IsInt64(t.amount) && IsInt64(t.timestamp) && Bytes.Storable(t.description)
  }

  /** The three string fields can be written (byte strings of int32-sized length). */
  predicate Writable(t: Transfer) {
    && IsInt32(t.id) && WireText(t.fromAccount) && WireText(t.toAccount)
    && IsInt64(t.amount) && IsInt64(t.timestamp) && WireText(t.description)
  }

  /** id, from, to, amount, ticks, and the description last, after the timestamp. */
  function Encode(t: Transfer): (r: seq<byte>)
    ensures |r| == 4 + (4 + |t.fromAccount|) + (4 + |t.toAccount|) + 8 + 8 + (4 + |t.description|)
  {
    EncodeI32(t.id) + EncodeString(t.fromAccount) + EncodeString(t.toAccount)
    + EncodeI64(t.amount) + EncodeI64(t.timestamp) + EncodeString(t.description)
  }

  function Decode(s: seq<byte>): Option<(Transfer, seq<byte>)>
  {
    var id :- DecodeI32(s);
    var from :- DecodeString(id.1);
    var to :- DecodeString(from.1);
    var amount :- DecodeI64(to.1);
    var time :- DecodeI64(amount.1);
    var desc :- DecodeString(time.1);
    Some((Transfer(id.0, from.0, to.0, amount.0, time.0, desc.0), desc.1))
  }

  /**
   * Any writable transfer decodes to itself with each string cut at its first
   * NUL byte, so the round trip is exact precisely for NUL-free strings.
   */
  lemma DecodeEncode(t: Transfer, rest: seq<byte>)
    requires Writable(t)
    ensures Decode(Encode(t) + rest)
         == Some((t.(fromAccount := CutAtNul(t.fromAccount), toAccount := CutAtNul(t.toAccount),
                     description := CutAtNul(t.description)), rest))
  {
    var t5 := EncodeString(t.description) + rest;
    var t4 := EncodeI64(t.timestamp) + t5;
    var t3 := EncodeI64(t.amount) + t4;
    var t2 := EncodeString(t.toAccount) + t3;
    var t1 := EncodeString(t.fromAccount) + t2;
    assert Encode(t) + rest == EncodeI32(t.id) + t1;
    I32RoundTrip(t.id, t1);
    StringRoundTrip(t.fromAccount, t2);
    StringRoundTrip(t.toAccount, t3);
    I64RoundTrip(t.amount, t4);
    I64RoundTrip(t.timestamp, t5);
    StringRoundTrip(t.description, rest);
  }

  lemma RoundTripExactlyWhenNulFree(t: Transfer, rest: seq<byte>)
    requires Writable(t)
    ensures Decode(Encode(t) + rest) == Some((t, rest)) <==> Storable(t)
  {
    DecodeEncode(t, rest);
    CutAtNulIdentity(t.fromAccount);
    CutAtNulIdentity(t.toAccount);
    CutAtNulIdentity(t.description);
  }

  lemma RoundTrip(t: Transfer, rest: seq<byte>)
    requires Storable(t)
    ensures Decode(Encode(t) + rest) == Some((t, rest))
  {
    RoundTripExactlyWhenNulFree(t, rest);
  }
}
