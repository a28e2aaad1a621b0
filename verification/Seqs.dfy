/** The list operations the pages chain together: `filter`, a stable `sort`
    by a numeric key, and `slice(0, k)`. */
module Seqs {

  /** `s.filter(p)`: the elements of `s` satisfying `p`, in their order,
      each passing element as often as it occurs in `s`. */
  function Filter<T(!new)>(s: seq<T>, p: T -> bool): (r: seq<T>)
    ensures |r| <= |s|
    ensures forall x :: x in r <==> x in s && p(x)
    ensures multiset(r) <= multiset(s)
    ensures forall x :: multiset(r)[x] == if p(x) then multiset(s)[x] else 0
  {
    if s == [] then []
    else
      assert s == [s[0]] + s[1..];
      if p(s[0]) then [s[0]] + Filter(s[1..], p)
      else Filter(s[1..], p)
  }

  /** `sub` can be obtained from `s` by deleting elements (order kept). */
  predicate Subsequence<T(==)>(sub: seq<T>, s: seq<T>)
  {
    if sub == [] then true
    else if s == [] then false
    else if sub[0] == s[0] then Subsequence(sub[1..], s[1..])
    else Subsequence(sub, s[1..])
  }

  /** Filtering keeps the relative order of what it keeps. */
  lemma {:induction false} FilterIsSubsequence<T(!new)>(s: seq<T>, p: T -> bool)
    ensures Subsequence(Filter(s, p), s)
  {
    if s != [] {
      FilterIsSubsequence(s[1..], p);
      if p(s[0]) {
        assert Filter(s, p) == [s[0]] + Filter(s[1..], p);
        assert Filter(s, p)[1..] == Filter(s[1..], p);
      } else {
        var r := Filter(s[1..], p);
        if r != [] {
          assert r[0] in s[1..] && p(r[0]);
          if r[0] == s[0] {
            // p(s[0]) would then hold
            assert false;
          }
        }
      }
    }
  }

  /** When every element passes, the filter is the identity. */
  lemma {:induction false} FilterKeepsAll<T(!new)>(s: seq<T>, p: T -> bool)
    requires forall x :: x in s ==> p(x)
    ensures Filter(s, p) == s
  {
    if s != [] {
      FilterKeepsAll(s[1..], p);
    }
  }

  /** Filtering twice by the same predicate is filtering once. */
  lemma FilterIdempotent<T(!new)>(s: seq<T>, p: T -> bool)
    ensures Filter(Filter(s, p), p) == Filter(s, p)
  {
    FilterKeepsAll(Filter(s, p), p);
  }

  /** An empty filter result means no element passes. */
  lemma FilterEmptyIff<T(!new)>(s: seq<T>, p: T -> bool)
    ensures |Filter(s, p)| == 0 <==> forall x :: x in s ==> !p(x)
  {
    if |Filter(s, p)| != 0 {
      assert Filter(s, p)[0] in Filter(s, p);
    }
  }

  /** `s.slice(0, k)`. */
  function Take<T>(s: seq<T>, k: nat): (r: seq<T>)
    ensures |r| == if k < |s| then k else |s|
    ensures r == s[..|r|]
  {
    if k < |s| then s[..k] else s
  }

  /** `s` is non-decreasing in `key`. */
  ghost predicate SortedBy<T>(s: seq<T>, key: T -> int)
  {
    forall i, j :: 0 <= i < j < |s| ==> key(s[i]) <= key(s[j])
  }

  /** Places `x` before the first element whose key is not smaller than
      its own, so that `x` precedes the elements with an equal key. */
  function Insert<T>(x: T, s: seq<T>, key: T -> int): (r: seq<T>)
    ensures |r| == |s| + 1
    ensures multiset(r) == multiset(s) + multiset{x}
  {
    if s == [] then [x]
    else if key(x) <= key(s[0]) then [x] + s
    else
      assert s == [s[0]] + s[1..];
      [s[0]] + Insert(x, s[1..], key)
  }

  /** Inserting into a sorted sequence keeps it sorted. */
  lemma {:induction false} InsertSorted<T>(x: T, s: seq<T>, key: T -> int)
    requires SortedBy(s, key)
    ensures SortedBy(Insert(x, s, key), key)
  {
    if s != [] && key(x) > key(s[0]) {
      var tail := Insert(x, s[1..], key);
      InsertSorted(x, s[1..], key);
      assert forall y :: y in tail ==> key(s[0]) <= key(y) by {
        forall y | y in tail ensures key(s[0]) <= key(y) {
          assert y in multiset(tail);
          if y != x {
            assert y in multiset(s[1..]);
            var k :| 0 <= k < |s[1..]| && s[1..][k] == y;
            assert s[k + 1] == y;
          }
        }
      }
      var r := [s[0]] + tail;
      forall i, j | 0 <= i < j < |r| ensures key(r[i]) <= key(r[j]) {
        if i == 0 {
          assert r[j] == tail[j - 1];
          assert tail[j - 1] in tail;
        } else {
          assert r[i] == tail[i - 1] && r[j] == tail[j - 1];
        }
      }
    }
  }

  /** The stable sort `s.sort((a, b) => key(a) - key(b))`: a permutation of
      `s`, non-decreasing in `key`; elements with equal keys keep the order
      they had in `s`. */
  function SortBy<T>(s: seq<T>, key: T -> int): (r: seq<T>)
    ensures |r| == |s|
    ensures multiset(r) == multiset(s)
    ensures SortedBy(r, key)
  {
    if s == [] then []
    else
      assert s == [s[0]] + s[1..];
      var sorted := SortBy(s[1..], key);
      InsertSorted(s[0], sorted, key);
      Insert(s[0], sorted, key)
  }

  /** The first `k` elements of a sorted copy hold the `k` smallest keys:
      every element left out has a key no smaller than every element kept. */
  lemma SortedPrefixHoldsSmallest<T(!new)>(s: seq<T>, key: T -> int, k: nat)
    ensures forall x, y :: x in s && x !in Take(SortBy(s, key), k) && y in Take(SortBy(s, key), k)
                           ==> key(y) <= key(x)
  {
    var sorted := SortBy(s, key);
    var kept := Take(sorted, k);
    forall x, y | x in s && x !in kept && y in kept
      ensures key(y) <= key(x)
    {
      assert x in multiset(sorted);
      var i :| 0 <= i < |sorted| && sorted[i] == x;
      var j :| 0 <= j < |kept| && kept[j] == y;
      if i < |kept| {
        assert false;
      }
    }
  }

  /** Everything in a prefix of a sorted copy comes from the input. */
  lemma TakeOfSortDrawsFromInput<T(!new)>(s: seq<T>, key: T -> int, k: nat)
    ensures forall y :: y in Take(SortBy(s, key), k) ==> y in s
  {
    var sorted := SortBy(s, key);
    forall y | y in Take(sorted, k) ensures y in s {
      assert y in multiset(sorted);
    }
  }

  /** `[...s].sort((a, b) => key(a) - key(b)).slice(0, k)`: min(k, |s|)
      elements of `s`, each at most as often as in `s`, ascending in `key`,
      and no element left out has a smaller key than an element kept. */
  function SortedPrefix<T(!new)>(s: seq<T>, key: T -> int, k: nat): (r: seq<T>)
    ensures |r| == if |s| < k then |s| else k
    ensures forall y :: y in r ==> y in s
    ensures multiset(r) <= multiset(s)
    ensures forall i, j :: 0 <= i < j < |r| ==> key(r[i]) <= key(r[j])
    ensures forall x, y :: x in s && x !in r && y in r ==> key(y) <= key(x)
  {
    TakeOfSortDrawsFromInput(s, key, k);
    SortedPrefixHoldsSmallest(s, key, k);
    var sorted := SortBy(s, key);
    var r := Take(sorted, k);
    assert sorted == r + sorted[|r|..];
    assert forall i, j :: 0 <= i < j < |r| ==> key(r[i]) <= key(r[j]) by {
      forall i, j | 0 <= i < j < |r| ensures key(r[i]) <= key(r[j]) {
        assert r[i] == sorted[i] && r[j] == sorted[j];
      }
    }
    r
  }
}
