/**
 * The standard-library algorithms the ledgers are built from: `std::copy_if`,
 * `std::count_if`, summation, and `std::sort` with a descending comparator
 * followed by `resize`.
 */
module Seqs {

  // ---- filtering ----

  /** The elements of `s` satisfying `p`, in their original order. */
  function Filter<T(!new)>(s: seq<T>, p: T -> bool): (r: seq<T>)
    ensures |r| <= |s|
    ensures forall i :: 0 <= i < |r| ==> p(r[i])
    ensures forall x :: x in r <==> x in s && p(x)
  {
    if s == [] then [] else (if p(s[0]) then [s[0]] else []) + Filter(s[1..], p)
  }

  /** Filtering keeps every occurrence of a selected element and none of the others. */
  lemma {:induction false} FilterCounts<T(!new)>(s: seq<T>, p: T -> bool)
    ensures forall x :: multiset(Filter(s, p))[x] == if p(x) then multiset(s)[x] else 0
  {
    if s != [] {
      FilterCounts(s[1..], p);
      assert s == [s[0]] + s[1..];
      assert Filter(s, p) == (if p(s[0]) then [s[0]] else []) + Filter(s[1..], p);
    }
  }

  /** `r` can be obtained from `s` by deleting elements. */
  ghost predicate Subsequence<T>(r: seq<T>, s: seq<T>)
    decreases |s|
  {
    r == [] || (s != [] && (Subsequence(r, s[1..]) || (r[0] == s[0] && Subsequence(r[1..], s[1..]))))
  }

  lemma {:induction false} FilterIsSubsequence<T(!new)>(s: seq<T>, p: T -> bool)
    ensures Subsequence(Filter(s, p), s)
  {
    if s != [] {
      var r := Filter(s, p);
      FilterIsSubsequence(s[1..], p);
      if p(s[0]) {
        assert r == [s[0]] + Filter(s[1..], p);
        assert r[1..] == Filter(s[1..], p);
      } else {
        assert r == Filter(s[1..], p);
      }
    }
  }

  /** A weaker condition keeps at least the same elements, in the same order. */
  lemma {:induction false} FilterMonotone<T(!new)>(s: seq<T>, p: T -> bool, q: T -> bool)
    requires forall x :: p(x) ==> q(x)
    ensures Subsequence(Filter(s, p), Filter(s, q))
  {
    if s != [] {
      var fp, fq := Filter(s[1..], p), Filter(s[1..], q);
      FilterMonotone(s[1..], p, q);
      assert Subsequence(fp, fq);
      if p(s[0]) {
        assert Filter(s, p) == [s[0]] + fp && Filter(s, q) == [s[0]] + fq;
        assert ([s[0]] + fq)[1..] == fq && ([s[0]] + fp)[1..] == fp;
      } else if q(s[0]) {
        assert Filter(s, p) == fp && Filter(s, q) == [s[0]] + fq;
        assert ([s[0]] + fq)[1..] == fq;
      } else {
        assert Filter(s, p) == fp && Filter(s, q) == fq;
      }
    }
  }

  /** Filtering keeps any pairwise ordering the input had. */
  lemma {:induction false} FilterKeepsOrder<T(!new)>(s: seq<T>, p: T -> bool, lt: (T, T) -> bool)
    requires forall i, j :: 0 <= i < j < |s| ==> lt(s[i], s[j])
    ensures forall i, j :: 0 <= i < j < |Filter(s, p)| ==> lt(Filter(s, p)[i], Filter(s, p)[j])
  {
    if s != [] {
      FilterKeepsOrder(s[1..], p, lt);
      var rest := Filter(s[1..], p);
      forall x | x in rest
        ensures lt(s[0], x)
      {
        var j :| 0 <= j < |s[1..]| && s[1..][j] == x;
        assert s[j + 1] == x;
      }
    }
  }

  /** Appending one element extends the filtered sequence by that element exactly when it qualifies. */
  lemma {:induction false} FilterAppend<T(!new)>(s: seq<T>, x: T, p: T -> bool)
    ensures Filter(s + [x], p) == Filter(s, p) + (if p(x) then [x] else [])
  {
    if s == [] {
      assert s + [x] == [x];
    } else {
      assert (s + [x])[1..] == s[1..] + [x];
      FilterAppend(s[1..], x, p);
    }
  }

  /** Summing over a filtered sequence, one element at a time. */
  lemma SumFilterStep<T(!new)>(s: seq<T>, p: T -> bool, f: T -> int)
    requires s != []
    ensures SumOf(Filter(s, p), f) == (if p(s[0]) then f(s[0]) else 0) + SumOf(Filter(s[1..], p), f)
  {
    if p(s[0]) {
      assert Filter(s, p) == [s[0]] + Filter(s[1..], p);
      assert Filter(s, p)[1..] == Filter(s[1..], p);
    } else {
      assert Filter(s, p) == Filter(s[1..], p);
    }
  }

  lemma {:induction false} FilterAll<T(!new)>(s: seq<T>, p: T -> bool)
    requires forall x :: x in s ==> p(x)
    ensures Filter(s, p) == s
  {
    if s != [] {
      FilterAll(s[1..], p);
    }
  }

  lemma {:induction false} FilterNone<T(!new)>(s: seq<T>, p: T -> bool)
    requires forall x :: x in s ==> !p(x)
    ensures Filter(s, p) == []
  {
    if s != [] {
      FilterNone(s[1..], p);
    }
  }

  /** The number of elements satisfying `p`. */
  function Count<T(!new)>(s: seq<T>, p: T -> bool): (r: nat)
    ensures r <= |s|
  {
    |Filter(s, p)|
  }

  lemma CountAppend<T(!new)>(s: seq<T>, x: T, p: T -> bool)
    ensures Count(s + [x], p) == Count(s, p) + (if p(x) then 1 else 0)
  {
    FilterAppend(s, x, p);
  }

  /** The sum of `f` over `s`, accumulated front to back. */
  function SumOf<T>(s: seq<T>, f: T -> int): int
  {
    if s == [] then 0 else f(s[0]) + SumOf(s[1..], f)
  }

  lemma {:induction false} SumAppend<T>(s: seq<T>, x: T, f: T -> int)
    ensures SumOf(s + [x], f) == SumOf(s, f) + f(x)
  {
    if s == [] {
      assert s + [x] == [x];
    } else {
      assert (s + [x])[1..] == s[1..] + [x];
      SumAppend(s[1..], x, f);
    }
  }

  // ---- ranking ----

  /** A sort key compared lexicographically: first `major`, then `minor`. */
  datatype Rank = Rank(major: int, minor: int)

  predicate RankLe(a: Rank, b: Rank) {
    a.major < b.major || (a.major == b.major && a.minor <= b.minor)
  }

  /** Non-increasing by rank: what `std::sort` with a "greater than" comparator guarantees. */
  predicate SortedDesc<T>(s: seq<T>, rank: T -> Rank) {
    forall i, j :: 0 <= i < j < |s| ==> RankLe(rank(s[j]), rank(s[i]))
  }

  function InsertDesc<T>(x: T, s: seq<T>, rank: T -> Rank): (r: seq<T>)
    requires SortedDesc(s, rank)
    ensures |r| == |s| + 1
    ensures multiset(r) == multiset(s) + multiset{x}
    ensures SortedDesc(r, rank)
    ensures r[0] == x || (s != [] && r[0] == s[0])
  {
    if s == [] || RankLe(rank(s[0]), rank(x)) then
      PrependDesc(x, s, rank);
      [x] + s
    else
      var tail := InsertDesc(x, s[1..], rank);
      assert s == [s[0]] + s[1..];
      PrependDesc(s[0], tail, rank);
      [s[0]] + tail
  }

  /** An element ranked at least as high as the head of a sorted sequence can go in front of it. */
  lemma PrependDesc<T>(y: T, t: seq<T>, rank: T -> Rank)
    requires SortedDesc(t, rank)
    requires t == [] || RankLe(rank(t[0]), rank(y))
    ensures SortedDesc([y] + t, rank)
  {
    var r := [y] + t;
    forall i, j | 0 <= i < j < |r| ensures RankLe(rank(r[j]), rank(r[i])) {
      assert r[j] == t[j - 1];
      if i > 0 {
        assert r[i] == t[i - 1];
      } else if j > 1 {
        assert RankLe(rank(t[j - 1]), rank(t[0]));
      }
    }
  }

  /**
   * Orders `s` by rank, highest first. Equal ranks keep their input order;
   * `std::sort` in the C++ code leaves the order of ties unspecified, so no
   * caller relies on it.
   */
  function SortDesc<T>(s: seq<T>, rank: T -> Rank): (r: seq<T>)
    ensures |r| == |s|
    ensures multiset(r) == multiset(s)
    ensures SortedDesc(r, rank)
  {
    if s == [] then []
    else
      assert s == [s[0]] + s[1..];
      InsertDesc(s[0], SortDesc(s[1..], rank), rank)
  }

  /**
   * `if (v.size() > n) v.resize(n);` with `n` an `int`: the comparison converts a
   * negative `n` to a huge `size_t`, so a negative `n` keeps everything.
   */
  function KeepFirst<T>(s: seq<T>, n: int): (r: seq<T>)
    ensures |r| == (if 0 <= n < |s| then n else |s|)
    ensures r == s[..|r|]
  {
    if 0 <= n < |s| then s[..n] else s
  }

  /**
   * The `n` highest-ranked elements of `s`, highest first: nothing left out
   * outranks anything kept.
   */
  function TopByRank<T>(s: seq<T>, rank: T -> Rank, n: int): (r: seq<T>)
    ensures |r| == (if 0 <= n < |s| then n else |s|)
    ensures SortedDesc(r, rank)
    ensures multiset(r) <= multiset(s)
    ensures forall x, i :: x in multiset(s) - multiset(r) && 0 <= i < |r| ==> RankLe(rank(x), rank(r[i]))
  {
    var sorted := SortDesc(s, rank);
    var r := KeepFirst(sorted, n);
    TopOfSorted(sorted, rank, |r|);
    r
  }

  lemma TopOfSorted<T>(s: seq<T>, rank: T -> Rank, k: nat)
    requires k <= |s| && SortedDesc(s, rank)
    ensures multiset(s[..k]) <= multiset(s)
    ensures forall x, i :: x in multiset(s) - multiset(s[..k]) && 0 <= i < k ==> RankLe(rank(x), rank(s[i]))
  {
    assert s == s[..k] + s[k..];
    assert multiset(s) == multiset(s[..k]) + multiset(s[k..]);
    forall x, i | x in multiset(s) - multiset(s[..k]) && 0 <= i < k
      ensures RankLe(rank(x), rank(s[i]))
    {
      assert x in multiset(s[k..]);
      var j :| 0 <= j < |s[k..]| && s[k..][j] == x;
      assert s[k + j] == x;
    }
  }
}
