/**
 * What `std::map` contributes to the model: its iteration order (ascending keys,
 * strings compared byte by byte) and the "later insert wins" rebuild of a map
 * from a sequence of records.
 */
module Ordering {

  // ---- key order ----

  /** `std::string`'s `operator<`: lexicographic on character codes, a proper prefix first. */
  predicate StrLt(a: string, b: string)
    decreases |a|
  {
    if |a| == 0 then |b| > 0
    else if |b| == 0 then false
    else a[0] < b[0] || (a[0] == b[0] && StrLt(a[1..], b[1..]))
  }

  lemma {:induction false} StrLtAsymmetric(a: string, b: string)
    ensures StrLt(a, b) ==> !StrLt(b, a)
    decreases |a|
  {
    if |a| > 0 && |b| > 0 && a[0] == b[0] {
      StrLtAsymmetric(a[1..], b[1..]);
    }
  }

  lemma {:induction false} StrLtTransitive(a: string, b: string, c: string)
    requires StrLt(a, b) && StrLt(b, c)
    ensures StrLt(a, c)
    decreases |a|
  {
    if |a| > 0 && a[0] == b[0] && b[0] == c[0] {
      StrLtTransitive(a[1..], b[1..], c[1..]);
    }
  }

  lemma {:induction false} StrLtTotal(a: string, b: string)
    ensures a == b || StrLt(a, b) || StrLt(b, a)
    decreases |a|
  {
    if |a| > 0 && |b| > 0 && a[0] == b[0] {
      StrLtTotal(a[1..], b[1..]);
      if a[1..] == b[1..] {
        assert a == [a[0]] + a[1..] && b == [b[0]] + b[1..];
      }
    }
  }

  lemma StrLtAsymmetricAll()
    ensures forall a: string, b: string :: StrLt(a, b) ==> !StrLt(b, a)
  {
    forall a: string, b: string
      ensures StrLt(a, b) ==> !StrLt(b, a)
    {
      StrLtAsymmetric(a, b);
    }
  }

  /** `m` is the least member of `s` in string order. */
  predicate IsMinString(m: string, s: set<string>) {
    m in s && forall x :: x in s ==> x == m || StrLt(m, x)
  }

  lemma {:induction false} MinStringExists(s: set<string>)
    requires s != {}
    ensures exists m :: IsMinString(m, s)
    decreases |s|
  {
    var y :| y in s;
    if s == {y} {
      assert IsMinString(y, s);
    } else {
      var s' := s - {y};
      MinStringExists(s');
      var m :| IsMinString(m, s');
      StrLtTotal(y, m);
      if StrLt(y, m) {
        forall x | x in s
          ensures x == y || StrLt(y, x)
        {
          if x != y {
            assert x in s';
            if x != m {
              StrLtTransitive(y, m, x);
            }
          }
        }
        assert IsMinString(y, s);
      } else {
        forall x | x in s
          ensures x == m || StrLt(m, x)
        {
          if x != y {
            assert x in s';
          }
        }
        assert IsMinString(m, s);
      }
    }
  }

  function MinString(s: set<string>): (m: string)
    requires s != {}
    ensures m in s && forall x :: x in s ==> x == m || StrLt(m, x)
  {
    MinStringExists(s);
    StrLtAsymmetricAll();
    var m :| IsMinString(m, s);
    m
  }

  function MinInt(s: set<int>): (m: int)
    requires s != {}
    ensures m in s && forall x :: x in s ==> m <= x
  {
    MinIntExists(s);
    var m :| m in s && forall x :: x in s ==> m <= x;
    m
  }

  lemma {:induction false} MinIntExists(s: set<int>)
    requires s != {}
    ensures exists m :: m in s && forall x :: x in s ==> m <= x
    decreases |s|
  {
    assert (forall x :: x !in s) ==> s == {};
    var y :| y in s;
    if s == {y} {
      assert forall x :: x in s ==> x == y;
      assert y in s && forall x :: x in s ==> y <= x;
    } else {
      var s' := s - {y};
      MinIntExists(s');
      var m :| m in s' && forall x :: x in s' ==> m <= x;
      var least := if y < m then y else m;
      assert least in s;
      forall x | x in s
        ensures least <= x
      {
        if x != y {
          assert x in s';
          assert m <= x;
        }
      }
      assert least in s && forall x :: x in s ==> least <= x;
    }
  }

  /** The keys of a `std::map<std::string, _>` in iteration order. */
  function SortedStrings(s: set<string>): (r: seq<string>)
    ensures |r| == |s|
    ensures forall x :: x in r <==> x in s
    ensures forall i, j :: 0 <= i < j < |r| ==> StrLt(r[i], r[j])
    decreases |s|
  {
    if s == {} then []
    else
      var m := MinString(s);
      var rest := SortedStrings(s - {m});
      assert forall j :: 0 <= j < |rest| ==> rest[j] in s - {m};
      [m] + rest
  }

  /** The keys of a `std::map<int, _>` in iteration order. */
  function SortedInts(s: set<int>): (r: seq<int>)
    ensures |r| == |s|
    ensures forall x :: x in r <==> x in s
    ensures forall i, j :: 0 <= i < j < |r| ==> r[i] < r[j]
    decreases |s|
  {
    if s == {} then []
    else
      var m := MinInt(s);
      var rest := SortedInts(s - {m});
      PrependSorted(m, s - {m}, rest);
      [m] + rest
  }

  lemma PrependSorted(m: int, s: set<int>, rest: seq<int>)
    requires forall x :: x in s ==> m < x
    requires forall x :: x in rest <==> x in s
    requires forall i, j :: 0 <= i < j < |rest| ==> rest[i] < rest[j]
    ensures forall i, j :: 0 <= i < j < |[m] + rest| ==> ([m] + rest)[i] < ([m] + rest)[j]
  {
    var r := [m] + rest;
    forall i, j | 0 <= i < j < |r| ensures r[i] < r[j] {
      assert r[j] == rest[j - 1];
      if i > 0 {
        assert r[i] == rest[i - 1];
      } else {
        assert rest[j - 1] in s;
      }
    }
  }

  predicate Distinct<T(==)>(s: seq<T>) {
    forall i, j :: 0 <= i < j < |s| ==> s[i] != s[j]
  }

  lemma SortedStringsDistinct(s: set<string>)
    ensures Distinct(SortedStrings(s))
  {
    var r := SortedStrings(s);
    forall i, j | 0 <= i < j < |r|
      ensures r[i] != r[j]
    {
      StrLtAsymmetric(r[i], r[j]);
    }
  }

  lemma SortedIntsDistinct(s: set<int>)
    ensures Distinct(SortedInts(s))
  {
  }

  /** Every member of the set occurs exactly once among the sorted keys. */
  lemma SortedIntsOnce(s: set<int>)
    ensures forall x :: multiset(SortedInts(s))[x] == (if x in s then 1 else 0)
  {
    var r := SortedInts(s);
    SortedIntsDistinct(s);
    DistinctOnce(r);
  }

  lemma {:induction false} DistinctOnce<T>(r: seq<T>)
    requires Distinct(r)
    ensures forall x :: multiset(r)[x] == (if x in r then 1 else 0)
  {
    if r != [] {
      DistinctOnce(r[1..]);
      assert r == [r[0]] + r[1..];
      assert r[0] !in r[1..];
    }
  }

  // ---- iterating and rebuilding maps ----

  /** The values stored under `keys`, in that order. */
  function Values<K, V>(m: map<K, V>, keys: seq<K>): (r: seq<V>)
    requires forall k :: k in keys ==> k in m
    ensures |r| == |keys|
    ensures forall i :: 0 <= i < |keys| ==> r[i] == m[keys[i]]
  {
    if keys == [] then [] else [m[keys[0]]] + Values(m, keys[1..])
  }

  /** Listing the values under every key of a map lists exactly the map's values. */
  lemma ValuesCover<K, V>(m: map<K, V>, keys: seq<K>)
    requires forall k :: k in keys ==> k in m
    requires forall k :: k in m ==> k in keys
    ensures forall v :: v in Values(m, keys) <==> v in m.Values
  {
    var r := Values(m, keys);
    forall v | v in r ensures v in m.Values {
      var i :| 0 <= i < |r| && r[i] == v;
      assert keys[i] in m;
    }
    forall v | v in m.Values ensures v in r {
      var k :| k in m && m[k] == v;
      assert k in keys;
      var i :| 0 <= i < |keys| && keys[i] == k;
      assert r[i] == v;
    }
  }

  lemma SortedStringValues<V>(m: map<string, V>)
    ensures forall v :: v in Values(m, SortedStrings(m.Keys)) <==> v in m.Values
  {
    ValuesCover(m, SortedStrings(m.Keys));
  }

  lemma SortedIntValues<V>(m: map<int, V>)
    ensures forall v :: v in Values(m, SortedInts(m.Keys)) <==> v in m.Values
  {
    var keys := SortedInts(m.Keys);
    forall k | k in keys ensures k in m {
      assert k in m.Keys;
    }
    forall k | k in m ensures k in keys {
      assert k in m.Keys;
    }
    ValuesCover(m, keys);
  }

  /** Inserts each record under its own key, in order, a later record replacing an earlier one. */
  function Collect<K, V>(acc: map<K, V>, vs: seq<V>, key: V -> K): map<K, V>
    decreases |vs|
  {
    if vs == [] then acc else Collect(acc[key(vs[0]) := vs[0]], vs[1..], key)
  }

  /** Every record is stored under the key it carries itself. */
  predicate KeyedBy<K, V>(m: map<K, V>, key: V -> K) {
    forall k :: k in m ==> key(m[k]) == k
  }

  lemma {:induction false} CollectValues<K, V>(acc: map<K, V>, m: map<K, V>, keys: seq<K>, key: V -> K)
    requires forall i :: 0 <= i < |keys| ==> keys[i] in m
    requires KeyedBy(m, key)
    ensures forall k :: k in Collect(acc, Values(m, keys), key) <==> k in acc || k in keys
    ensures forall k :: k in keys ==> Collect(acc, Values(m, keys), key)[k] == m[k]
    ensures forall k :: k in acc && k !in keys ==> Collect(acc, Values(m, keys), key)[k] == acc[k]
    decreases |keys|
  {
    if keys != [] {
      var k0 := keys[0];
      assert Values(m, keys)[1..] == Values(m, keys[1..]);
      CollectValues(acc[k0 := m[k0]], m, keys[1..], key);
      assert forall k :: k in keys <==> k == k0 || k in keys[1..];
    }
  }

  /** Re-inserting the records listed under every key of a map gives back the map. */
  lemma CollectStringKeyed<V>(m: map<string, V>, keys: seq<string>, key: V -> string)
    requires KeyedBy(m, key)
    requires forall k :: k in keys <==> k in m
    ensures Collect(map[], Values(m, keys), key) == m
  {
    forall i | 0 <= i < |keys| ensures keys[i] in m {
      var k := keys[i];
      assert k in keys;
      assert k in m;
    }
    CollectValues(map[], m, keys, key);
    var r := Collect(map[], Values(m, keys), key);
    assert r.Keys == m.Keys;
  }

  /** Writing a map's records in iteration order and re-inserting them gives back the map. */
  lemma CollectSortedValues<V>(m: map<string, V>, key: V -> string)
    requires KeyedBy(m, key)
    ensures Collect(map[], Values(m, SortedStrings(m.Keys)), key) == m
  {
    CollectStringKeyed(m, SortedStrings(m.Keys), key);
  }

  lemma CollectSortedIntValues<V>(m: map<int, V>, key: V -> int)
    requires KeyedBy(m, key)
    ensures Collect(map[], Values(m, SortedInts(m.Keys)), key) == m
  {
    CollectIntKeyed(m, SortedInts(m.Keys), key);
  }

  lemma CollectIntKeyed<V>(m: map<int, V>, keys: seq<int>, key: V -> int)
    requires KeyedBy(m, key)
    requires forall k :: k in keys <==> k in m
    ensures Collect(map[], Values(m, keys), key) == m
  {
    forall i | 0 <= i < |keys| ensures keys[i] in m {
      var k := keys[i];
      assert k in keys;
      assert k in m;
    }
    CollectValues(map[], m, keys, key);
    var r := Collect(map[], Values(m, keys), key);
    forall k | k in m ensures k in r {
      assert k in keys;
    }
    forall k | k in r ensures k in m {
      assert k in keys;
    }
    assert r.Keys == m.Keys;
  }

  /** The sum of `f` over the values stored under `keys`. */
  function SumOver<K, V>(m: map<K, V>, keys: seq<K>, f: V -> int): int
    requires forall k :: k in keys ==> k in m
  {
    if keys == [] then 0 else f(m[keys[0]]) + SumOver(m, keys[1..], f)
  }

  /** Replacing one stored value changes the sum by exactly the change in `f`, if its key is listed once. */
  lemma {:induction false} SumOverUpdate<K, V>(m: map<K, V>, keys: seq<K>, k: K, v: V, f: V -> int)
    requires forall x :: x in keys ==> x in m
    requires Distinct(keys)
    requires k in m
    ensures SumOver(m[k := v], keys, f) == SumOver(m, keys, f) + (if k in keys then f(v) - f(m[k]) else 0)
  {
    if keys != [] {
      SumOverUpdate(m, keys[1..], k, v, f);
      assert keys[0] !in keys[1..];
    }
  }
}
