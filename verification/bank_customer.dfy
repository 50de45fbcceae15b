/** A bank account: balance, activity time and its own transfer history (bank_customer.h). */
module Customers {
  import opened Wrappers
  import opened Bytes
  import opened Transfers

  /** `balance` is in cents; `lastActivityTime` is in clock ticks. */
  datatype Customer = Customer(id: int, name: string, accountNumber: string, balance: int,
                               lastActivityTime: int, history: seq<Transfer>)

  /** A new account starts empty, active now. */
  function NewCustomer(id: int, name: string, accountNumber: string, now: int): (r: Customer)
    ensures r.balance == 0 && r.history == [] && r.lastActivityTime == now
    ensures r.id == id && r.name == name && r.accountNumber == accountNumber
  {
    Customer(id, name, accountNumber, 0, now, [])
  }

  /** A positive amount is credited and marks activity; anything else is ignored. */
  function Deposit(c: Customer, amount: int, now: int): (r: Customer)
    ensures amount > 0 ==> r.balance == c.balance + amount && r.lastActivityTime == now
    ensures amount > 0 ==> r.(balance := c.balance, lastActivityTime := c.lastActivityTime) == c
    ensures amount <= 0 ==> r == c
  {
    if amount > 0 then c.(balance := c.balance + amount, lastActivityTime := now) else c
  }

  /** Debits a positive amount the balance covers; otherwise reports false and changes nothing. */
  function Withdraw(c: Customer, amount: int, now: int): (r: (bool, Customer))
    ensures r.0 <==> amount > 0 && c.balance >= amount
    ensures r.0 ==> r.1.balance == c.balance - amount && r.1.lastActivityTime == now
    ensures r.0 ==> r.1.(balance := c.balance, lastActivityTime := c.lastActivityTime) == c
    ensures !r.0 ==> r.1 == c
  {
    if amount > 0 && c.balance >= amount then
      (true, c.(balance := c.balance - amount, lastActivityTime := now))
    else (false, c)
  }

  /** A withdrawal can never overdraw an account. */
  lemma WithdrawKeepsBalanceNonNegative(c: Customer, amount: int, now: int)
    requires c.balance >= 0
    ensures Withdraw(c, amount, now).1.balance >= 0
  {
  }

  /** A successful withdrawal is undone by depositing the same amount, up to the activity time. */
  lemma WithdrawThenDeposit(c: Customer, amount: int, now: int)
    requires Withdraw(c, amount, now).0
    ensures Deposit(Withdraw(c, amount, now).1, amount, now) == c.(lastActivityTime := now)
  {
  }

  /** Records one transfer at the end of the history and marks activity. */
  function AddTransaction(c: Customer, t: Transfer, now: int): (r: Customer)
    ensures |r.history| == |c.history| + 1 && r.history[|c.history|] == t
    ensures r.history[..|c.history|] == c.history
    ensures r.lastActivityTime == now
    ensures r.(history := c.history, lastActivityTime := c.lastActivityTime) == c
  {
    c.(history := c.history + [t], lastActivityTime := now)
  }

  // ---- record codec ----

  predicate Storable(c: Customer) {
    && IsInt32(c.id) && Bytes.Storable(c.name) && Bytes.Storable(c.accountNumber)
    && IsInt64(c.balance) && IsInt64(c.lastActivityTime)
    && |c.history| < 2 * Int64Bound
    && forall t :: t in c.history ==> Transfers.Storable(t)
  }

  /** id, name, account number, balance, activity ticks, then the count-prefixed history. */
  function Encode(c: Customer): (r: seq<byte>)
    ensures |r| == 4 + (4 + |c.name|) + (4 + |c.accountNumber|) + 8 + 8 + 8 + EncodedSize(c.history, Transfers.Encode)
  {
    EncodeI32(c.id) + EncodeString(c.name) + EncodeString(c.accountNumber)
    + EncodeI64(c.balance) + EncodeI64(c.lastActivityTime)
    + EncodeList(c.history, Transfers.Encode)
  }

  function Decode(s: seq<byte>): Option<(Customer, seq<byte>)>
  {
    var id :- DecodeI32(s);
    var name :- DecodeString(id.1);
    var acct :- DecodeString(name.1);
    var balance :- DecodeI64(acct.1);
    var time :- DecodeI64(balance.1);
    var history :- DecodeList(time.1, Transfers.Decode);
    Some((Customer(id.0, name.0, acct.0, balance.0, time.0, history.0), history.1))
  }

  lemma RoundTrip(c: Customer, rest: seq<byte>)
    requires Storable(c)
    ensures Decode(Encode(c) + rest) == Some((c, rest))
  {
    var t5 := EncodeList(c.history, Transfers.Encode) + rest;
    var t4 := EncodeI64(c.lastActivityTime) + t5;
    var t3 := EncodeI64(c.balance) + t4;
    var t2 := EncodeString(c.accountNumber) + t3;
    var t1 := EncodeString(c.name) + t2;
    assert Encode(c) + rest == EncodeI32(c.id) + t1;
    I32RoundTrip(c.id, t1);
    StringRoundTrip(c.name, t2);
    StringRoundTrip(c.accountNumber, t3);
    I64RoundTrip(c.balance, t4);
    I64RoundTrip(c.lastActivityTime, t5);
    forall t, tail | t in c.history
      ensures Transfers.Decode(Transfers.Encode(t) + tail) == Some((t, tail))
    {
      Transfers.RoundTrip(t, tail);
    }
    ListRoundTrip(c.history, Transfers.Encode, Transfers.Decode, rest);
  }
}
