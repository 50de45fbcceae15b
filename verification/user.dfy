/**
 * The account-holder base of buyers and sellers (user.h): identity, login
 * state and the one-line description, with `std::to_string` on integers
 * written out as decimal digits.
 */
module Users {
  import opened Wrappers

  /** `lastLoginTime` is in clock ticks; a new user has the epoch (0). */
  datatype User = User(id: int, name: string, loginState: bool, lastLoginTime: int)

  function NewUser(id: int, name: string): (r: User)
    ensures !r.loginState && r.lastLoginTime == 0
    ensures r.id == id && r.name == name
  {
    User(id, name, false, 0)
  }

  function SetId(u: User, id: int): (r: User)
    ensures r.id == id && r.(id := u.id) == u
  {
    u.(id := id)
  }

  function SetName(u: User, name: string): (r: User)
    ensures r.name == name && r.(name := u.name) == u
  {
    u.(name := name)
  }

  /** Any password is accepted: the user is logged in as of `now`. */
  function Login(u: User, password: string, now: int): (r: (bool, User))
    ensures r.0
    ensures r.1.loginState && r.1.lastLoginTime == now
    ensures r.1.(loginState := u.loginState, lastLoginTime := u.lastLoginTime) == u
  {
    (true, u.(loginState := true, lastLoginTime := now))
  }

  /** Clears the login flag; the last login time is kept. */
  function Logout(u: User): (r: User)
    ensures !r.loginState
    ensures r.(loginState := u.loginState) == u
  {
    u.(loginState := false)
  }

  /** Logging in and out again restores the logged-out user, apart from the recorded login time. */
  lemma LoginLogout(u: User, password: string, now: int)
    requires !u.loginState
    ensures Logout(Login(u, password, now).1) == u.(lastLoginTime := now)
  {
  }

  // ---- decimal text ----

  predicate IsDigit(c: char) {
    '0' <= c <= '9'
  }

  predicate AllDigits(s: string) {
    forall i :: 0 <= i < |s| ==> IsDigit(s[i])
  }

  function DigitChar(d: nat): (c: char)
    requires d < 10
    ensures IsDigit(c)
  {
    ['0', '1', '2', '3', '4', '5', '6', '7', '8', '9'][d]
  }

  function DigitValue(c: char): (d: nat)
    requires IsDigit(c)
    ensures d < 10
  {
    (c as int - '0' as int)
  }

  lemma DigitCharValue(d: nat)
    requires d < 10
    ensures DigitValue(DigitChar(d)) == d
  {
  }

  /** The shortest decimal spelling of `n` ("0" for zero). */
  function NatToString(n: nat): (r: string)
    ensures |r| > 0 && AllDigits(r)
    ensures |r| > 1 ==> r[0] != '0'
  {
    if n < 10 then [DigitChar(n)] else NatToString(n / 10) + [DigitChar(n % 10)]
  }

  /** `std::to_string(int)`: a minus sign before the magnitude of a negative number. */
  function IntToString(x: int): (r: string)
    ensures ',' !in r && |r| > 0
    ensures x < 0 <==> r[0] == '-'
    ensures var digits := if x < 0 then r[1..] else r;
              && |digits| > 0 && AllDigits(digits)
              && (|digits| > 1 ==> digits[0] != '0')
  {
    if x < 0 then "-" + NatToString(-x) else NatToString(x)
  }

  /** The value of a string of decimal digits, most significant first. */
  function DigitsValue(s: string): nat
    requires AllDigits(s)
  {
    if s == [] then 0 else 10 * DigitsValue(s[..|s| - 1]) + DigitValue(s[|s| - 1])
  }

  /** Reads an optional minus sign followed by one or more digits; anything else is rejected. */
  function ParseInt(s: string): (r: Option<int>)
    ensures r.Some? ==> |s| > 0
  {
    if |s| > 0 && s[0] == '-' then
      if |s| > 1 && AllDigits(s[1..]) then Some(0 - DigitsValue(s[1..])) else None
    else if |s| > 0 && AllDigits(s) then Some(DigitsValue(s))
    else None
  }

  lemma {:induction false} NatToStringValue(n: nat)
    ensures DigitsValue(NatToString(n)) == n
  {
    var r := NatToString(n);
    if n < 10 {
      DigitCharValue(n);
    } else {
      NatToStringValue(n / 10);
      DigitCharValue(n % 10);
      assert r[..|r| - 1] == NatToString(n / 10);
    }
  }

  lemma ParseNegative(d: string)
    requires |d| > 0 && AllDigits(d)
    ensures ParseInt("-" + d) == Some(0 - DigitsValue(d))
  {
    assert ("-" + d)[1..] == d;
  }

  lemma ParseNonNegative(d: string)
    requires |d| > 0 && AllDigits(d)
    ensures ParseInt(d) == Some(DigitsValue(d))
  {
    assert IsDigit(d[0]);
  }

  /** Reading back what `IntToString` wrote gives the number. */
  lemma IntToStringRoundTrip(x: int)
    ensures ParseInt(IntToString(x)) == Some(x)
  {
    if x < 0 {
      var d := NatToString(-x);
      NatToStringValue(-x);
      calc {
        ParseInt(IntToString(x));
        ParseInt("-" + d);
        { ParseNegative(d); }
        Some(0 - DigitsValue(d));
        Some(x);
      }
    } else {
      var d := NatToString(x);
      NatToStringValue(x);
      calc {
        ParseInt(IntToString(x));
        ParseInt(d);
        { ParseNonNegative(d); }
        Some(DigitsValue(d));
        Some(x);
      }
    }
  }

  // ---- description ----

  /** `getInfo`: "ID: <id>, Name: <name>". */
  function Info(u: User): (r: string)
    ensures |r| >= |"ID: "| + 1 + |", Name: "| + |u.name|
  {
    "ID: " + IntToString(u.id) + ", Name: " + u.name
  }

  /** The position of the first `c` in `s`, or `|s|` when there is none. */
  function IndexOf(s: string, c: char): (i: nat)
    ensures i <= |s|
    ensures forall j :: 0 <= j < i ==> s[j] != c
    ensures i < |s| ==> s[i] == c
  {
    if s == [] || s[0] == c then 0 else 1 + IndexOf(s[1..], c)
  }

  /** Splits a description back into the id and the name. */
  function ParseInfo(s: string): (r: Option<(int, string)>)
  {
    if |s| < 4 || s[..4] != "ID: " then None
    else
      var rest := s[4..];
      var k := IndexOf(rest, ',');
      var tail := rest[k..];
      if |tail| < 8 || tail[..8] != ", Name: " then None
      else
        var id :- ParseInt(rest[..k]);
        Some((id, tail[8..]))
  }

  lemma {:induction false} IndexOfFirst(a: string, b: string, c: char)
    requires c !in a && |b| > 0 && b[0] == c
    ensures IndexOf(a + b, c) == |a|
  {
    if a != [] {
      assert (a + b)[1..] == a[1..] + b;
      IndexOfFirst(a[1..], b, c);
    }
  }

  lemma {:induction false} ParseInfoParts(digits: string, name: string, id: int)
    requires ',' !in digits && ParseInt(digits) == Some(id)
    ensures ParseInfo("ID: " + digits + ", Name: " + name) == Some((id, name))
  {
    var s := "ID: " + digits + ", Name: " + name;
    assert s[..4] == "ID: ";
    var rest := s[4..];
    assert rest == digits + (", Name: " + name);
    IndexOfFirst(digits, ", Name: " + name, ',');
    assert rest[..|digits|] == digits;
    assert rest[|digits|..] == ", Name: " + name;
  }

  /** The description determines the id and the name: any name, even one containing ", Name: ". */
  lemma InfoRoundTrip(u: User)
    ensures ParseInfo(Info(u)) == Some((u.id, u.name))
  {
    IntToStringRoundTrip(u.id);
    ParseInfoParts(IntToString(u.id), u.name, u.id);
  }
}
