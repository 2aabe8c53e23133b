/** The descending sorts and `slice(0, n)` cuts of the listings and reports.
    JavaScript's `Array.prototype.sort` is stable; the insertion sort below
    keeps equal keys in their input order as well. */
module Sorting {

  predicate SortedDesc<T>(s: seq<T>, key: T -> int) {
    forall i, j :: 0 <= i < j < |s| ==> key(s[i]) >= key(s[j])
  }

  /** Places `x` before the first element whose key is not larger. */
  function InsertDesc<T>(x: T, s: seq<T>, key: T -> int): (r: seq<T>)
    requires SortedDesc(s, key)
    ensures SortedDesc(r, key)
    ensures multiset(r) == multiset(s) + multiset{x}
    ensures |r| == |s| + 1
  {
    if |s| == 0 || key(x) >= key(s[0]) then [x] + s
    else
      var rest := InsertDesc(x, s[1..], key);
      assert s == [s[0]] + s[1..];
      assert forall k :: 0 <= k < |rest| ==> key(s[0]) >= key(rest[k]) by {
        forall k | 0 <= k < |rest|
          ensures key(s[0]) >= key(rest[k])
        {
          assert rest[k] in multiset(rest);
          assert rest[k] == x || rest[k] in multiset(s[1..]);
          if rest[k] != x {
            assert rest[k] in s[1..];
          }
        }
      }
      [s[0]] + rest
  }

  /** `sort((a, b) => key(b) - key(a))`: a permutation ordered by key,
      largest first. */
  function SortDesc<T>(s: seq<T>, key: T -> int): (r: seq<T>)
    ensures SortedDesc(r, key)
    ensures multiset(r) == multiset(s)
    ensures |r| == |s|
  {
    if |s| == 0 then []
    else
      assert s == [s[0]] + s[1..];
      InsertDesc(s[0], SortDesc(s[1..], key), key)
  }

  /** The elements whose key is `v`, in their order: the run of ties a
      stable sort leaves in input order. */
  function WithKey<T>(s: seq<T>, key: T -> int, v: int): seq<T> {
    if |s| == 0 then []
    else (if key(s[0]) == v then [s[0]] else []) + WithKey(s[1..], key, v)
  }

  /** Inserting `x` puts it ahead of every element with its key. */
  lemma {:induction false} WithKeyInsert<T>(x: T, s: seq<T>, key: T -> int, v: int)
    requires SortedDesc(s, key)
    ensures WithKey(InsertDesc(x, s, key), key, v) == (if key(x) == v then [x] else []) + WithKey(s, key, v)
  {
    var r := InsertDesc(x, s, key);
    if |s| == 0 || key(x) >= key(s[0]) {
      assert r[1..] == s;
    } else {
      var rest := InsertDesc(x, s[1..], key);
      assert r[1..] == rest;
      WithKeyInsert(x, s[1..], key, v);
    }
  }

  /** The sort is stable: the elements of each key come out in the order
      they went in. */
  lemma {:induction false} SortDescStable<T>(s: seq<T>, key: T -> int, v: int)
    ensures WithKey(SortDesc(s, key), key, v) == WithKey(s, key, v)
  {
    if |s| > 0 {
      SortDescStable(s[1..], key, v);
      WithKeyInsert(s[0], SortDesc(s[1..], key), key, v);
    }
  }

  /** Every key's run of ties is the same in both sequences: one is the
      other reordered stably. */
  ghost predicate SameTies<T>(a: seq<T>, b: seq<T>, key: T -> int) {
    forall v :: WithKey(a, key, v) == WithKey(b, key, v)
  }

  /** Stability for every key at once. */
  lemma SortDescStableAll<T>(s: seq<T>, key: T -> int)
    ensures SameTies(SortDesc(s, key), s, key)
  {
    forall v
      ensures WithKey(SortDesc(s, key), key, v) == WithKey(s, key, v)
    {
      SortDescStable(s, key, v);
    }
  }

  /** Cutting a sequence short cuts each run of ties short. */
  lemma {:induction false} WithKeyPrefix<T>(s: seq<T>, m: nat, key: T -> int, v: int)
    requires m <= |s|
    ensures WithKey(s[..m], key, v) <= WithKey(s, key, v)
  {
    if m > 0 {
      assert s[..m][1..] == s[1..][..m - 1];
      WithKeyPrefix(s[1..], m - 1, key, v);
    }
  }

  /** `slice(0, n)`. */
  function Take<T>(s: seq<T>, n: nat): (r: seq<T>)
    ensures |r| == if |s| < n then |s| else n
    ensures r == s[..|r|]
  {
    if |s| < n then s else s[..n]
  }

  /** The first `n` of a descending sort are the top `n`: each comes from
      the input no more often than it occurs there, anything left out means
      the cut is full and ranks no higher than every element kept, and ties
      are kept in input order. */
  lemma TopOfSorted<T>(s: seq<T>, key: T -> int, n: nat)
    ensures var r := Take(SortDesc(s, key), n);
      && SortedDesc(r, key)
      && multiset(r) <= multiset(s)
      && (forall k :: 0 <= k < |r| ==> r[k] in s)
      && (forall x :: x in s && x !in r ==>
            |r| == n && forall k :: 0 <= k < |r| ==> key(r[k]) >= key(x))
      && (forall v :: WithKey(r, key, v) <= WithKey(s, key, v))
  {
    var sorted := SortDesc(s, key);
    var r := Take(sorted, n);
    assert sorted == r + sorted[|r|..];
    assert multiset(sorted) == multiset(r) + multiset(sorted[|r|..]);
    forall v
      ensures WithKey(r, key, v) <= WithKey(s, key, v)
    {
      WithKeyPrefix(sorted, |r|, key, v);
      SortDescStable(s, key, v);
    }
    forall k | 0 <= k < |r|
      ensures r[k] in s
    {
      assert r[k] in multiset(sorted);
    }
    forall x | x in s && x !in r
      ensures |r| == n && forall k :: 0 <= k < |r| ==> key(r[k]) >= key(x)
    {
      assert x in multiset(sorted);
      var m :| 0 <= m < |sorted| && sorted[m] == x;
      assert m >= |r|;
    }
  }

  /** `reduce((sum, x) => sum + f(x), 0)`. */
  function SumBy<T>(s: seq<T>, f: T -> int): int {
    if |s| == 0 then 0 else f(s[0]) + SumBy(s[1..], f)
  }

  /** Sums add up over concatenation. */
  lemma {:induction false} SumByAppend<T>(a: seq<T>, b: seq<T>, f: T -> int)
    ensures SumBy(a + b, f) == SumBy(a, f) + SumBy(b, f)
  {
    if |a| == 0 {
      assert a + b == b;
    } else {
      assert (a + b)[1..] == a[1..] + b;
      SumByAppend(a[1..], b, f);
    }
  }

  /** Taking element `j` out of a sequence takes it out of its multiset. */
  lemma MultisetRemove<T>(b: seq<T>, j: nat)
    requires j < |b|
    ensures multiset(b[..j] + b[j + 1..]) == multiset(b) - multiset{b[j]}
  {
    assert b == b[..j] + [b[j]] + b[j + 1..];
  }

  /** Taking element `j` out of a sequence takes its value out of its sum. */
  lemma SumByRemove<T>(b: seq<T>, j: nat, f: T -> int)
    requires j < |b|
    ensures SumBy(b, f) == f(b[j]) + SumBy(b[..j] + b[j + 1..], f)
  {
    var tail := [b[j]] + b[j + 1..];
    assert b == b[..j] + tail;
    SumByAppend(b[..j], tail, f);
    assert tail[1..] == b[j + 1..];
    SumByAppend(b[..j], b[j + 1..], f);
  }

  /** Reordering does not change a sum: summing after a sort gives the sum
      of the unsorted rows. */
  lemma {:induction false} SumByPermutation<T>(a: seq<T>, b: seq<T>, f: T -> int)
    requires multiset(a) == multiset(b)
    ensures SumBy(a, f) == SumBy(b, f)
    decreases |a|
  {
    if |a| == 0 {
      assert |multiset(b)| == 0;
    } else {
      assert a[0] in multiset(b);
      var j :| 0 <= j < |b| && b[j] == a[0];
      SumByRemove(b, j, f);
      MultisetRemove(b, j);
      assert a == [a[0]] + a[1..];
      assert multiset(a[1..]) == multiset(a) - multiset{a[0]};
      SumByPermutation(a[1..], b[..j] + b[j + 1..], f);
    }
  }
}
