/**
  Ordering and summation over sequences: the `ORDER BY`, `DISTINCT` and
  `SUM` of the SQL queries the store issues, stated once and reused by every
  listing and report.

  SQLite leaves the relative order of rows with equal sort keys unspecified;
  the contracts here therefore only promise a sorted permutation, and the
  particular tie order the insertion sort produces is not relied upon.
*/
module Sorting {

  /** `le` is a total preorder: every pair is comparable and `le` is transitive. */
  ghost predicate TotalPreorder<T(!new)>(le: (T, T) -> bool) {
    && (forall a, b :: le(a, b) || le(b, a))
    && (forall a, b, c :: le(a, b) && le(b, c) ==> le(a, c))
  }

  /** A total preorder that is also antisymmetric. */
  ghost predicate TotalOrder<T(!new)>(le: (T, T) -> bool) {
    && TotalPreorder(le)
    && (forall a, b :: le(a, b) && le(b, a) ==> a == b)
  }

  predicate Sorted<T>(s: seq<T>, le: (T, T) -> bool) {
    forall i, j :: 0 <= i < j < |s| ==> le(s[i], s[j])
  }

  predicate Distinct<T(==)>(s: seq<T>) {
    forall i, j :: 0 <= i < j < |s| ==> s[i] != s[j]
  }

  function Insert<T(!new)>(x: T, s: seq<T>, le: (T, T) -> bool): (r: seq<T>)
    requires TotalPreorder(le) && Sorted(s, le)
    ensures Sorted(r, le)
    ensures multiset(r) == multiset(s) + multiset{x}
    ensures forall y :: y in r ==> y == x || y in s
  {
    if |s| == 0 then [x]
    else if le(x, s[0]) then
      ConsSorted(x, s, le);
      [x] + s
    else
      var rest := Insert(x, s[1..], le);
      assert s == [s[0]] + s[1..];
      HeadBelowAll(x, s, rest, le);
      ConsSorted(s[0], rest, le);
      [s[0]] + rest
  }

  /** An element below everything in a sorted sequence can go in front of it. */
  lemma ConsSorted<T(!new)>(h: T, s: seq<T>, le: (T, T) -> bool)
    requires TotalPreorder(le) && Sorted(s, le)
    requires |s| > 0 ==> le(h, s[0])
    ensures Sorted([h] + s, le)
  {
    var r := [h] + s;
    forall i, j | 0 <= i < j < |r|
      ensures le(r[i], r[j])
    {
      if i == 0 && j > 1 {
        assert le(s[0], s[j - 1]);
      } else if i > 0 {
        assert r[i] == s[i - 1] && r[j] == s[j - 1];
      }
    }
  }

  /** When `x` sorts after the head of `s`, that head sorts before the rest with `x` inserted. */
  lemma HeadBelowAll<T(!new)>(x: T, s: seq<T>, rest: seq<T>, le: (T, T) -> bool)
    requires TotalPreorder(le) && Sorted(s, le) && |s| > 0 && !le(x, s[0])
    requires |rest| > 0 ==> rest[0] == x || rest[0] in s[1..]
    ensures |rest| > 0 ==> le(s[0], rest[0])
  {
    if |rest| > 0 && rest[0] != x {
      var k :| 0 <= k < |s[1..]| && s[1..][k] == rest[0];
      assert s[k + 1] == rest[0];
    }
  }

  /** The rows of `s` rearranged into `le` order (insertion sort). */
  function Sort<T(!new)>(s: seq<T>, le: (T, T) -> bool): (r: seq<T>)
    requires TotalPreorder(le)
    ensures Sorted(r, le)
    ensures multiset(r) == multiset(s)
  {
    if |s| == 0 then []
    else
      assert s == [s[0]] + s[1..];
      Insert(s[0], Sort(s[1..], le), le)
  }

  /** A sorted sequence with adjacent repeats collapsed (`SELECT DISTINCT … ORDER BY`). */
  function Dedup<T(==,!new)>(s: seq<T>, le: (T, T) -> bool): (r: seq<T>)
    requires TotalOrder(le) && Sorted(s, le)
    ensures Sorted(r, le) && Distinct(r)
    ensures forall x :: x in r <==> x in s
  {
    if |s| <= 1 then s
    else
      var rest := Dedup(s[1..], le);
      if s[0] == s[1] then
        assert forall x :: x in s <==> x in s[1..] by {
          assert s == [s[0]] + s[1..];
        }
        rest
      else
        assert s[0] !in rest;
        assert forall x :: x in s <==> x == s[0] || x in s[1..] by {
          assert s == [s[0]] + s[1..];
        }
        var r := [s[0]] + rest;
        assert Sorted(r, le) && Distinct(r) by {
          forall i, j | 0 <= i < j < |r|
            ensures le(r[i], r[j]) && r[i] != r[j]
          {
            if i == 0 {
              assert r[j] in s[1..];
              var k :| 1 <= k < |s| && s[k] == r[j];
              assert le(s[0], s[k]);
            } else {
              assert r[i] == rest[i - 1] && r[j] == rest[j - 1];
            }
          }
        }
        r
  }

  /** The distinct values of `s` in strictly ascending `le` order. */
  function SortDistinct<T(==,!new)>(s: seq<T>, le: (T, T) -> bool): (r: seq<T>)
    requires TotalOrder(le)
    ensures Sorted(r, le) && Distinct(r)
    ensures forall x :: x in r <==> x in s
  {
    var sorted := Sort(s, le);
    assert forall x :: x in sorted <==> x in multiset(sorted);
    Dedup(sorted, le)
  }

  /** The elements of `s` that `keep` accepts, in their original order (a `WHERE` clause). */
  function Filter<T(!new)>(s: seq<T>, keep: T -> bool): (r: seq<T>)
    ensures |r| <= |s|
    ensures forall x :: x in r <==> x in s && keep(x)
  {
    if |s| == 0 then []
    else
      assert s == [s[0]] + s[1..];
      (if keep(s[0]) then [s[0]] else []) + Filter(s[1..], keep)
  }

  /** Appending one element to a filtered sequence appends it to the result exactly when it is kept. */
  lemma {:induction false} FilterAppend<T(!new)>(s: seq<T>, x: T, keep: T -> bool)
    ensures Filter(s + [x], keep) == Filter(s, keep) + (if keep(x) then [x] else [])
  {
    if |s| == 0 {
      assert s + [x] == [x];
    } else {
      assert (s + [x])[1..] == s[1..] + [x];
      FilterAppend(s[1..], x, keep);
    }
  }

  /** A filter that keeps everything changes nothing. */
  lemma {:induction false} FilterAll<T(!new)>(s: seq<T>, keep: T -> bool)
    requires forall x :: keep(x)
    ensures Filter(s, keep) == s
  {
    if |s| > 0 {
      FilterAll(s[1..], keep);
      assert s == [s[0]] + s[1..];
    }
  }

  /** A sequence has no repeats exactly when no value occurs in it twice. */
  lemma {:induction false} DistinctCounts<T>(s: seq<T>)
    ensures Distinct(s) <==> forall x :: multiset(s)[x] <= 1
  {
    if Distinct(s) {
      forall x
        ensures multiset(s)[x] <= 1
      {
        if |s| > 0 {
          assert s == [s[0]] + s[1..];
          assert Distinct(s[1..]) by {
            forall i, j | 0 <= i < j < |s| - 1
              ensures s[1..][i] != s[1..][j]
            {
              assert s[1..][i] == s[i + 1] && s[1..][j] == s[j + 1];
            }
          }
          DistinctCounts(s[1..]);
          assert s[0] !in s[1..];
        }
      }
    } else {
      var i, j :| 0 <= i < j < |s| && s[i] == s[j];
      assert s == s[..j] + s[j..];
      assert s[i] in s[..j] && s[j] in s[j..];
      assert multiset(s)[s[i]] == multiset(s[..j])[s[i]] + multiset(s[j..])[s[i]];
    }
  }

  /** A permutation of a sequence without repeats has none either. */
  lemma PermutationKeepsDistinct<T>(a: seq<T>, b: seq<T>)
    requires multiset(a) == multiset(b) && Distinct(a)
    ensures Distinct(b)
  {
    DistinctCounts(a);
    DistinctCounts(b);
  }

  /** Filtering a sequence without repeats leaves none. */
  lemma {:induction false} FilterKeepsDistinct<T(!new)>(s: seq<T>, keep: T -> bool)
    requires Distinct(s)
    ensures Distinct(Filter(s, keep))
  {
    if |s| > 0 {
      var tail := s[1..];
      assert Distinct(tail) by {
        forall i, j | 0 <= i < j < |tail|
          ensures tail[i] != tail[j]
        {
          assert tail[i] == s[i + 1] && tail[j] == s[j + 1];
        }
      }
      FilterKeepsDistinct(tail, keep);
      var rest := Filter(tail, keep);
      assert s[0] !in rest;
      var head: seq<T> := if keep(s[0]) then [s[0]] else [];
      var r := head + rest;
      assert Filter(s, keep) == r;
      forall i, j | 0 <= i < j < |r|
        ensures r[i] != r[j]
      {
        if i < |head| {
          assert r[j] == rest[j - |head|];
        } else {
          assert r[i] == rest[i - |head|] && r[j] == rest[j - |head|];
        }
      }
    }
  }

  /** `g` applied to every element, in order (a `SELECT` list). */
  function Map<T, U>(s: seq<T>, g: T -> U): (r: seq<U>)
    ensures |r| == |s|
    ensures forall i :: 0 <= i < |s| ==> r[i] == g(s[i])
  {
    if |s| == 0 then [] else [g(s[0])] + Map(s[1..], g)
  }

  /** Σ f(x) over the elements of `s`. */
  function SumOf<T>(s: seq<T>, f: T -> int): int {
    if |s| == 0 then 0 else f(s[0]) + SumOf(s[1..], f)
  }

  /** Summing over a filter is summing over everything with the rejected terms counted as zero. */
  lemma {:induction false} SumOfFilter<T(!new)>(s: seq<T>, keep: T -> bool, f: T -> int)
    ensures SumOf(Filter(s, keep), f) == SumOf(s, x => if keep(x) then f(x) else 0)
  {
    if |s| > 0 {
      SumOfFilter(s[1..], keep, f);
      SumOfConcat(if keep(s[0]) then [s[0]] else [], Filter(s[1..], keep), f);
    }
  }

  lemma {:induction false} SumOfConcat<T>(a: seq<T>, b: seq<T>, f: T -> int)
    ensures SumOf(a + b, f) == SumOf(a, f) + SumOf(b, f)
  {
    if |a| == 0 {
      assert a + b == b;
    } else {
      assert (a + b)[1..] == a[1..] + b;
      SumOfConcat(a[1..], b, f);
    }
  }

  lemma {:induction false} SumOfMap<T, U>(s: seq<T>, g: T -> U, f: U -> int, h: T -> int)
    requires forall x :: h(x) == f(g(x))
    ensures SumOf(Map(s, g), f) == SumOf(s, h)
  {
    if |s| > 0 {
      SumOfMap(s[1..], g, f, h);
    }
  }

  /** A sum does not depend on the order of its terms. */
  lemma {:induction false} SumOfPermutation<T>(a: seq<T>, b: seq<T>, f: T -> int)
    requires multiset(a) == multiset(b)
    ensures SumOf(a, f) == SumOf(b, f)
    decreases |a|
  {
    if |a| == 0 {
      assert |b| == |multiset(b)| == 0;
    } else {
      var x := a[0];
      assert x in multiset(b);
      var i :| 0 <= i < |b| && b[i] == x;
      var rest := b[..i] + b[i + 1..];
      SumOfRemoveAt(b, i, f);
      assert a == [x] + a[1..];
      assert multiset(a[1..]) == multiset(a) - multiset{x};
      SumOfPermutation(a[1..], rest, f);
    }
  }

  /** Taking the element at `i` out of `b` removes one copy of it and its term from the sum. */
  lemma SumOfRemoveAt<T>(b: seq<T>, i: int, f: T -> int)
    requires 0 <= i < |b|
    ensures multiset(b[..i] + b[i + 1..]) == multiset(b) - multiset{b[i]}
    ensures SumOf(b, f) == f(b[i]) + SumOf(b[..i] + b[i + 1..], f)
  {
    assert b == b[..i] + ([b[i]] + b[i + 1..]);
    SumOfConcat(b[..i], [b[i]] + b[i + 1..], f);
    SumOfConcat(b[..i], b[i + 1..], f);
    assert SumOf([b[i]] + b[i + 1..], f) == f(b[i]) + SumOf(b[i + 1..], f) by {
      assert ([b[i]] + b[i + 1..])[1..] == b[i + 1..];
    }
    assert multiset(b) == multiset(b[..i] + b[i + 1..]) + multiset{b[i]};
  }

  // ---------------------------------------------------------------------
  // GROUP BY sums
  // ---------------------------------------------------------------------

  /** Σ f(x) over the x in `xs` whose key is `k`: one group's `SUM`. */
  function GroupSum<T, K(==)>(xs: seq<T>, key: T -> K, k: K, f: T -> int): int {
    if |xs| == 0 then 0
    else (if key(xs[0]) == k then f(xs[0]) else 0) + GroupSum(xs[1..], key, k, f)
  }

  /** The group sums of every key in `keys`, added up. */
  function GroupSums<T, K(==)>(keys: seq<K>, xs: seq<T>, key: T -> K, f: T -> int): int {
    if |keys| == 0 then 0 else GroupSum(xs, key, keys[0], f) + GroupSums(keys[1..], xs, key, f)
  }

  /** Σ over `keys` of `v` where the key is `k`, and 0 elsewhere. */
  function Hits<K(==)>(keys: seq<K>, k: K, v: int): int {
    if |keys| == 0 then 0 else (if keys[0] == k then v else 0) + Hits(keys[1..], k, v)
  }

  lemma {:induction false} HitsOnce<K>(keys: seq<K>, k: K, v: int)
    requires Distinct(keys)
    ensures Hits(keys, k, v) == if k in keys then v else 0
  {
    if |keys| > 0 {
      assert Distinct(keys[1..]);
      HitsOnce(keys[1..], k, v);
      assert keys == [keys[0]] + keys[1..];
    }
  }

  lemma {:induction false} GroupSumsOfEmpty<T, K>(keys: seq<K>, key: T -> K, f: T -> int)
    ensures GroupSums(keys, [], key, f) == 0
  {
    if |keys| > 0 {
      GroupSumsOfEmpty(keys[1..], key, f);
    }
  }

  lemma {:induction false} GroupSumsCons<T, K>(keys: seq<K>, xs: seq<T>, key: T -> K, f: T -> int)
    requires |xs| > 0
    ensures GroupSums(keys, xs, key, f) == Hits(keys, key(xs[0]), f(xs[0])) + GroupSums(keys, xs[1..], key, f)
  {
    if |keys| > 0 {
      GroupSumsCons(keys[1..], xs, key, f);
    }
  }

  /**
    When every element's key is listed once in `keys`, the groups partition
    the elements: their sums add up to the sum over all elements.
  */
  lemma {:induction false} PartitionSum<T, K>(keys: seq<K>, xs: seq<T>, key: T -> K, f: T -> int)
    requires Distinct(keys)
    requires forall i :: 0 <= i < |xs| ==> key(xs[i]) in keys
    ensures GroupSums(keys, xs, key, f) == SumOf(xs, f)
  {
    if |xs| == 0 {
      GroupSumsOfEmpty(keys, key, f);
    } else {
      GroupSumsCons(keys, xs, key, f);
      HitsOnce(keys, key(xs[0]), f(xs[0]));
      assert forall i :: 0 <= i < |xs[1..]| ==> xs[1..][i] == xs[i + 1];
      PartitionSum(keys, xs[1..], key, f);
    }
  }

  /** A group whose key some element carries sums a positive count. */
  lemma {:induction false} GroupCountPositive<T, K>(xs: seq<T>, key: T -> K, k: K, one: T -> int)
    requires forall x :: one(x) == 1
    requires exists i :: 0 <= i < |xs| && key(xs[i]) == k
    ensures GroupSum(xs, key, k, one) >= 1
  {
    var i :| 0 <= i < |xs| && key(xs[i]) == k;
    GroupSumNonNegative(xs[1..], key, k, one);
    if i > 0 {
      assert xs[1..][i - 1] == xs[i];
      GroupCountPositive(xs[1..], key, k, one);
    }
  }

  lemma {:induction false} GroupSumNonNegative<T, K>(xs: seq<T>, key: T -> K, k: K, f: T -> int)
    requires forall x :: f(x) >= 0
    ensures GroupSum(xs, key, k, f) >= 0
  {
    if |xs| > 0 {
      GroupSumNonNegative(xs[1..], key, k, f);
    }
  }
}
