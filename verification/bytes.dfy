/**
 * The wire format shared by every record: little-endian fixed-width integers,
 * int32-length-prefixed strings and 8-byte-count-prefixed collections.
 */
module Bytes {
  import opened Wrappers

  newtype byte = x: int | 0 <= x < 256

  const Int32Bound: int := 0x8000_0000
  const Int64Bound: int := 0x8000_0000_0000_0000

  predicate IsInt32(x: int) {
    -Int32Bound <= x < Int32Bound
  }

  predicate IsInt64(x: int) {
    -Int64Bound <= x < Int64Bound
  }

  function Pow256(n: nat): (r: nat)
    ensures r > 0
  {
    if n == 0 then 1 else 256 * Pow256(n - 1)
  }

  lemma Pow256Widths()
    ensures Pow256(4) == 2 * Int32Bound
    ensures Pow256(8) == 2 * Int64Bound
  {
  }

  /** The low `n` bytes of `x`, least significant first. */
  function EncodeNat(x: nat, n: nat): (r: seq<byte>)
    ensures |r| == n
  {
    if n == 0 then [] else [(x % 256) as byte] + EncodeNat(x / 256, n - 1)
  }

  /** The unsigned value of a little-endian byte string. */
  function DecodeNat(s: seq<byte>): (r: nat)
    ensures r < Pow256(|s|)
  {
    if s == [] then 0 else s[0] as int + 256 * DecodeNat(s[1..])
  }

  lemma {:induction false} DecodeEncodeNat(x: nat, n: nat)
    requires x < Pow256(n)
    ensures DecodeNat(EncodeNat(x, n)) == x
  {
    if n > 0 {
      var e := EncodeNat(x, n);
      assert e[1..] == EncodeNat(x / 256, n - 1);
      DecodeEncodeNat(x / 256, n - 1);
    }
  }

  // ---- fixed-width fields ----

  /** A C++ `int` as its two's-complement bit pattern. */
  function EncodeI32(x: int): (r: seq<byte>)
    ensures |r| == 4
  {
    EncodeNat(x % 0x1_0000_0000, 4)
  }

  /** A 64-bit signed field (clock ticks, money). */
  function EncodeI64(x: int): (r: seq<byte>)
    ensures |r| == 8
  {
    EncodeNat(x % 0x1_0000_0000_0000_0000, 8)
  }

  /** A `size_t` collection count. */
  function EncodeCount(n: nat): (r: seq<byte>)
    ensures |r| == 8
  {
    EncodeNat(n, 8)
  }

  function DecodeI32(s: seq<byte>): (r: Option<(int, seq<byte>)>)
    ensures r.Some? <==> |s| >= 4
    ensures r.Some? ==> IsInt32(r.value.0) && r.value.1 == s[4..]
  {
    if |s| < 4 then None
    else
      Pow256Widths();
      var u := DecodeNat(s[..4]);
      Some((if u < Int32Bound then u else u - 2 * Int32Bound, s[4..]))
  }

  function DecodeI64(s: seq<byte>): (r: Option<(int, seq<byte>)>)
    ensures r.Some? <==> |s| >= 8
    ensures r.Some? ==> IsInt64(r.value.0) && r.value.1 == s[8..]
  {
    if |s| < 8 then None
    else
      Pow256Widths();
      var u := DecodeNat(s[..8]);
      Some((if u < Int64Bound then u else u - 2 * Int64Bound, s[8..]))
  }

  function DecodeCount(s: seq<byte>): (r: Option<(nat, seq<byte>)>)
    ensures r.Some? <==> |s| >= 8
    ensures r.Some? ==> r.value.1 == s[8..]
  {
    if |s| < 8 then None else Some((DecodeNat(s[..8]), s[8..]))
  }

  lemma I32RoundTrip(x: int, rest: seq<byte>)
    requires IsInt32(x)
    ensures DecodeI32(EncodeI32(x) + rest) == Some((x, rest))
  {
    Pow256Widths();
    var e := EncodeI32(x);
    assert (e + rest)[..4] == e && (e + rest)[4..] == rest;
    var u := x % 0x1_0000_0000;
    assert u == if x >= 0 then x else x + 0x1_0000_0000;
    DecodeEncodeNat(u, 4);
  }

  lemma I64RoundTrip(x: int, rest: seq<byte>)
    requires IsInt64(x)
    ensures DecodeI64(EncodeI64(x) + rest) == Some((x, rest))
  {
    Pow256Widths();
    var e := EncodeI64(x);
    assert (e + rest)[..8] == e && (e + rest)[8..] == rest;
    var u := x % 0x1_0000_0000_0000_0000;
    assert u == if x >= 0 then x else x + 0x1_0000_0000_0000_0000;
    DecodeEncodeNat(u, 8);
  }

  lemma CountRoundTrip(n: nat, rest: seq<byte>)
    requires n < 2 * Int64Bound
    ensures DecodeCount(EncodeCount(n) + rest) == Some((n, rest))
  {
    Pow256Widths();
    var e := EncodeCount(n);
    assert (e + rest)[..8] == e && (e + rest)[8..] == rest;
    DecodeEncodeNat(n, 8);
  }

  // ---- strings ----

  /** `std::string` holds bytes: every character of a model string is below 256. */
  predicate ByteString(s: string) {
    forall i :: 0 <= i < |s| ==> s[i] as int < 256
  }

  /** A string the codec can write: bytes only, and its length fits the int32 prefix. */
  predicate WireText(s: string) {
    ByteString(s) && |s| < Int32Bound
  }

  predicate NulFree(s: string) {
    '\0' !in s
  }

  /** A string that survives a write and a read unchanged. */
  predicate Storable(s: string) {
    WireText(s) && NulFree(s)
  }

  function CharBytes(s: string): (r: seq<byte>)
    ensures |r| == |s|
  {
    seq(|s|, i requires 0 <= i < |s| => ((s[i] as int) % 256) as byte)
  }

  function BytesText(b: seq<byte>): (r: string)
    ensures |r| == |b| && ByteString(r)
  {
    seq(|b|, i requires 0 <= i < |b| => (b[i] as int) as char)
  }

  /**
   * The prefix of `s` before its first NUL: what `std::string(buffer)` keeps of a
   * NUL-terminated buffer.
   */
  function CutAtNul(s: string): (r: string)
    ensures |r| <= |s| && r == s[..|r|]
    ensures NulFree(r)
    ensures |r| < |s| ==> s[|r|] == '\0'
  {
    if s == [] || s[0] == '\0' then [] else [s[0]] + CutAtNul(s[1..])
  }

  lemma CutAtNulIdentity(s: string)
    ensures CutAtNul(s) == s <==> NulFree(s)
  {
  }

  /** Length as int32, then the raw bytes (no terminator). */
  function EncodeString(s: string): (r: seq<byte>)
    ensures |r| == 4 + |s|
  {
    EncodeI32(|s|) + CharBytes(s)
  }

  /** Reads the length and that many bytes; a negative length or a short buffer is rejected. */
  function DecodeString(s: seq<byte>): (r: Option<(string, seq<byte>)>)
  {
    var len :- DecodeI32(s);
    if len.0 < 0 || |len.1| < len.0 then None
    else Some((CutAtNul(BytesText(len.1[..len.0])), len.1[len.0..]))
  }

  lemma BytesTextOfCharBytes(s: string)
    requires ByteString(s)
    ensures BytesText(CharBytes(s)) == s
  {
  }

  /** A byte string comes back from the codec exactly when it has no NUL byte. */
  lemma StringRoundTrip(s: string, rest: seq<byte>)
    requires WireText(s)
    ensures DecodeString(EncodeString(s) + rest) == Some((s, rest)) <==> NulFree(s)
    ensures DecodeString(EncodeString(s) + rest) == Some((CutAtNul(s), rest))
  {
    var c := CharBytes(s);
    assert EncodeString(s) + rest == EncodeI32(|s|) + (c + rest);
    I32RoundTrip(|s|, c + rest);
    assert (c + rest)[..|s|] == c && (c + rest)[|s|..] == rest;
    BytesTextOfCharBytes(s);
    CutAtNulIdentity(s);
  }

  // ---- collections ----

  /** The number of bytes the records of `xs` occupy together. */
  function EncodedSize<T>(xs: seq<T>, enc: T -> seq<byte>): nat
  {
    if xs == [] then 0 else |enc(xs[0])| + EncodedSize(xs[1..], enc)
  }

  function EncodeAll<T>(xs: seq<T>, enc: T -> seq<byte>): (r: seq<byte>)
    ensures |r| == EncodedSize(xs, enc)
  {
    if xs == [] then [] else enc(xs[0]) + EncodeAll(xs[1..], enc)
  }

  /** An 8-byte count, then each record in order. */
  function EncodeList<T>(xs: seq<T>, enc: T -> seq<byte>): (r: seq<byte>)
    ensures |r| == 8 + EncodedSize(xs, enc)
  {
    EncodeCount(|xs|) + EncodeAll(xs, enc)
  }

  function DecodeN<T>(s: seq<byte>, n: nat, dec: seq<byte> -> Option<(T, seq<byte>)>): (r: Option<(seq<T>, seq<byte>)>)
    ensures r.Some? ==> |r.value.0| == n
    decreases n
  {
    if n == 0 then Some(([], s))
    else
      var first :- dec(s);
      var others :- DecodeN(first.1, n - 1, dec);
      Some(([first.0] + others.0, others.1))
  }

  function DecodeList<T>(s: seq<byte>, dec: seq<byte> -> Option<(T, seq<byte>)>): Option<(seq<T>, seq<byte>)>
  {
    var count :- DecodeCount(s);
    DecodeN(count.1, count.0, dec)
  }

  lemma {:induction false} DecodeAllRoundTrip<T>(xs: seq<T>, enc: T -> seq<byte>, dec: seq<byte> -> Option<(T, seq<byte>)>, rest: seq<byte>)
    requires forall x, tail :: x in xs ==> dec(enc(x) + tail) == Some((x, tail))
    ensures DecodeN(EncodeAll(xs, enc) + rest, |xs|, dec) == Some((xs, rest))
  {
    if xs != [] {
      var tail := EncodeAll(xs[1..], enc) + rest;
      assert EncodeAll(xs, enc) + rest == enc(xs[0]) + tail;
      assert dec(enc(xs[0]) + tail) == Some((xs[0], tail));
      DecodeAllRoundTrip(xs[1..], enc, dec, rest);
      assert DecodeN(tail, |xs| - 1, dec) == Some((xs[1..], rest));
      assert [xs[0]] + xs[1..] == xs;
    } else {
      assert EncodeAll(xs, enc) + rest == rest;
    }
  }

  lemma ListRoundTrip<T>(xs: seq<T>, enc: T -> seq<byte>, dec: seq<byte> -> Option<(T, seq<byte>)>, rest: seq<byte>)
    requires |xs| < 2 * Int64Bound
    requires forall x, tail :: x in xs ==> dec(enc(x) + tail) == Some((x, tail))
    ensures DecodeList(EncodeList(xs, enc) + rest, dec) == Some((xs, rest))
  {
    var body := EncodeAll(xs, enc) + rest;
    assert EncodeList(xs, enc) + rest == EncodeCount(|xs|) + body;
    CountRoundTrip(|xs|, body);
    DecodeAllRoundTrip(xs, enc, dec, rest);
  }
}
