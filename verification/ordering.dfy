/** Ordering primitives the scripts borrow from numpy and Python:
    `np.unique` (sorted, duplicate-free), `np.searchsorted(..., side='left')` on a
    sorted array, and the stable `list.sort(key=...)`. */
module Ordering {

  ghost predicate StrictlyIncreasing(s: seq<real>) {
    forall i, j :: 0 <= i < j < |s| ==> s[i] < s[j]
  }

  ghost predicate NonDecreasing(s: seq<real>) {
    forall i, j :: 0 <= i < j < |s| ==> s[i] <= s[j]
  }

  /** Inserts `x` into a strictly increasing sequence unless it is already there. */
  function InsertUnique(r: seq<real>, x: real): (r': seq<real>)
    requires StrictlyIncreasing(r)
    ensures StrictlyIncreasing(r')
    ensures forall y :: y in r' <==> y in r || y == x
  {
    if |r| == 0 then [x]
    else if x < r[0] then [x] + r
    else if x == r[0] then r
    else
      var tail := InsertUnique(r[1..], x);
      assert forall y :: y in r <==> y == r[0] || y in r[1..];
      assert forall j :: 0 <= j < |tail| ==> r[0] < tail[j] by {
        forall j | 0 <= j < |tail|
          ensures r[0] < tail[j]
        {
          assert tail[j] in tail;
        }
      }
      [r[0]] + tail
  }

  /** `np.unique`: the distinct values of `s`, ascending. */
  function SortedUnique(s: seq<real>): (r: seq<real>)
    ensures StrictlyIncreasing(r)
    ensures forall y :: y in r <==> y in s
    ensures |r| <= |s|
  {
    if |s| == 0 then []
    else
      var r0 := SortedUnique(s[..|s| - 1]);
      assert forall y :: y in s <==> y in s[..|s| - 1] || y == s[|s| - 1];
      var r := InsertUnique(r0, s[|s| - 1]);
      DistinctBound(r, s);
      r
  }

  /** A strictly increasing sequence drawn from `s` is no longer than `s`. */
  lemma DistinctBound(r: seq<real>, s: seq<real>)
    requires StrictlyIncreasing(r)
    requires forall y :: y in r ==> y in s
    ensures |r| <= |s|
  {
    var rs := set i | 0 <= i < |r| :: r[i];
    assert |rs| == |r| by { DistinctCard(r); }
    var ss := set y | y in s;
    assert rs <= ss;
    SetOfSeqBound(s);
    assert |rs| <= |ss| by { SubsetCard(rs, ss); }
  }

  lemma {:induction false} DistinctCard(r: seq<real>)
    requires StrictlyIncreasing(r)
    ensures |set i | 0 <= i < |r| :: r[i]| == |r|
  {
    if |r| > 0 {
      var init := r[..|r| - 1];
      DistinctCard(init);
      var a := set i | 0 <= i < |init| :: init[i];
      var b := set i | 0 <= i < |r| :: r[i];
      assert b == a + {r[|r| - 1]};
      assert r[|r| - 1] !in a;
    }
  }

  lemma {:induction false} SetOfSeqBound(s: seq<real>)
    ensures |set y | y in s| <= |s|
  {
    if |s| > 0 {
      var init := s[..|s| - 1];
      SetOfSeqBound(init);
      assert (set y | y in s) == (set y | y in init) + {s[|s| - 1]};
    }
  }

  lemma SubsetCard(a: set<real>, b: set<real>)
    requires a <= b
    ensures |a| <= |b|
  {
    assert b == a + (b - a);
  }

  /** Two sequences holding the same values are empty together. */
  lemma EmptyTogether(a: seq<real>, b: seq<real>)
    requires forall y :: y in a <==> y in b
    ensures |a| == 0 <==> |b| == 0
  {
    if |a| > 0 {
      var z := a[0];
      assert z in a;
    }
    if |b| > 0 {
      var z := b[0];
      assert z in b;
    }
  }

  /** Two strictly increasing sequences holding the same values are the same sequence,
      so `np.unique` depends only on the SET of its input values. */
  lemma {:induction false} StrictlyIncreasingUnique(a: seq<real>, b: seq<real>)
    requires StrictlyIncreasing(a) && StrictlyIncreasing(b)
    requires forall y :: y in a <==> y in b
    ensures a == b
  {
    EmptyTogether(a, b);
    if |a| > 0 {
      var a0 := a[0];
      assert a0 in a;
      var j :| 0 <= j < |b| && b[j] == a[0];
      assert b[0] <= a[0];
      var b0 := b[0];
      assert b0 in b;
      var i :| 0 <= i < |a| && a[i] == b[0];
      assert a[0] <= b[0];
      forall y
        ensures y in a[1..] <==> y in b[1..]
      {
        if y in a[1..] {
          assert y in b;
          assert y != b[0];
        }
        if y in b[1..] {
          assert y in a;
          assert y != a[0];
        }
      }
      StrictlyIncreasingUnique(a[1..], b[1..]);
      assert a == [a[0]] + a[1..];
      assert b == [b[0]] + b[1..];
    }
  }

  lemma SortedUniqueBySet(s: seq<real>, s': seq<real>)
    requires forall y :: y in s <==> y in s'
    ensures SortedUnique(s) == SortedUnique(s')
  {
    StrictlyIncreasingUnique(SortedUnique(s), SortedUnique(s'));
  }

  /** `np.searchsorted(u, x)` (side 'left') on a sorted array: the number of leading
      entries strictly below `x`. */
  function SearchSortedLeft(u: seq<real>, x: real): (k: nat)
    ensures k <= |u|
    ensures forall i :: 0 <= i < k ==> u[i] < x
    ensures k < |u| ==> x <= u[k]
  {
    if |u| == 0 || x <= u[0] then 0 else 1 + SearchSortedLeft(u[1..], x)
  }

  /** For a value that occurs in a strictly increasing `u`, the search returns its
      position. */
  lemma SearchSortedLeftFindsMember(u: seq<real>, i: nat)
    requires StrictlyIncreasing(u)
    requires i < |u|
    ensures SearchSortedLeft(u, u[i]) == i
  {
    var k := SearchSortedLeft(u, u[i]);
    if k < i {
      assert false;
    } else if k > i {
      assert false;
    }
  }

  /** A value strictly between two neighbouring entries (or equal to the upper one)
      lands on the upper one's position. */
  lemma {:induction false} SearchSortedLeftBetween(u: seq<real>, j: nat, x: real)
    requires StrictlyIncreasing(u)
    requires 1 <= j < |u|
    requires u[j - 1] < x <= u[j]
    ensures SearchSortedLeft(u, x) == j
  {
    assert u[0] <= u[j - 1];
    if j > 1 {
      SearchSortedLeftBetween(u[1..], j - 1, x);
    }
  }

  /** A value above every entry lands past the end. */
  lemma {:induction false} SearchSortedLeftPastEnd(u: seq<real>, x: real)
    requires forall i :: 0 <= i < |u| ==> u[i] < x
    ensures SearchSortedLeft(u, x) == |u|
  {
    if |u| > 0 {
      SearchSortedLeftPastEnd(u[1..], x);
    }
  }

  // ---------------------------------------------------------------------------
  // Stable sort by an integer key (Python's `list.sort(key=...)` is stable).

  ghost predicate SortedByKey<T>(s: seq<T>, key: T -> int) {
    forall i, j :: 0 <= i < j < |s| ==> key(s[i]) <= key(s[j])
  }

  /** The elements of `s` whose key is `k`, in their order in `s`. */
  function WithKey<T>(s: seq<T>, key: T -> int, k: int): (r: seq<T>)
    ensures |r| <= |s|
  {
    if |s| == 0 then []
    else (if key(s[0]) == k then [s[0]] else []) + WithKey(s[1..], key, k)
  }

  ghost predicate KeysAtLeast<T>(s: seq<T>, key: T -> int, lb: int) {
    forall i :: 0 <= i < |s| ==> lb <= key(s[i])
  }

  /** Inserts `x` before the first element whose key is not below `key(x)`. */
  function InsertByKey<T>(x: T, s: seq<T>, key: T -> int): (r: seq<T>)
    ensures |r| == |s| + 1
  {
    if |s| == 0 || key(x) <= key(s[0]) then [x] + s
    else [s[0]] + InsertByKey(x, s[1..], key)
  }

  /** Insertion keeps a key-sorted sequence sorted and keeps any lower bound that `x`
      also meets. */
  lemma {:induction false} InsertByKeySorted<T>(x: T, s: seq<T>, key: T -> int)
    requires SortedByKey(s, key)
    ensures SortedByKey(InsertByKey(x, s, key), key)
    ensures forall lb :: KeysAtLeast(s, key, lb) && lb <= key(x) ==> KeysAtLeast(InsertByKey(x, s, key), key, lb)
  {
    if |s| == 0 {
    } else if key(x) <= key(s[0]) {
      InsertFrontSorted(x, s, key);
    } else {
      var tail := InsertByKey(x, s[1..], key);
      InsertByKeySorted(x, s[1..], key);
      assert KeysAtLeast(s[1..], key, key(s[0]));
      InsertFrontSorted'(s[0], tail, key);
      forall lb | KeysAtLeast(s, key, lb) && lb <= key(x)
        ensures KeysAtLeast(InsertByKey(x, s, key), key, lb)
      {
        assert KeysAtLeast(s[1..], key, lb);
        assert lb <= key(s[0]);
      }
    }
  }

  /** Insertion adds exactly one occurrence of `x`. */
  lemma {:induction false} InsertByKeyMultiset<T>(x: T, s: seq<T>, key: T -> int)
    ensures multiset(InsertByKey(x, s, key)) == multiset(s) + multiset{x}
  {
    if |s| > 0 && key(x) > key(s[0]) {
      InsertByKeyMultiset(x, s[1..], key);
      assert s == [s[0]] + s[1..];
    }
  }

  /** Insertion puts `x` ahead of every element sharing its key, and leaves the
      elements of every key in their original order. */
  lemma {:induction false} InsertByKeyKeys<T>(x: T, s: seq<T>, key: T -> int)
    requires SortedByKey(s, key)
    ensures forall k :: WithKey(InsertByKey(x, s, key), key, k) == (if key(x) == k then [x] else []) + WithKey(s, key, k)
  {
    if |s| == 0 || key(x) <= key(s[0]) {
      InsertFrontKeys(x, s, key);
    } else {
      var tail := InsertByKey(x, s[1..], key);
      InsertByKeyKeys(x, s[1..], key);
      InsertFrontKeys(s[0], tail, key);
      forall k
        ensures WithKey([s[0]] + tail, key, k) == (if key(x) == k then [x] else []) + WithKey(s, key, k)
      {
        assert WithKey(s, key, k) == (if key(s[0]) == k then [s[0]] else []) + WithKey(s[1..], key, k);
      }
    }
  }

  lemma InsertFrontSorted<T>(x: T, s: seq<T>, key: T -> int)
    requires SortedByKey(s, key)
    requires |s| > 0 && key(x) <= key(s[0])
    ensures SortedByKey([x] + s, key)
    ensures forall lb :: KeysAtLeast(s, key, lb) && lb <= key(x) ==> KeysAtLeast([x] + s, key, lb)
  {
    var r := [x] + s;
    forall i, j | 0 <= i < j < |r|
      ensures key(r[i]) <= key(r[j])
    {
      if i == 0 {
        assert r[j] == s[j - 1];
        assert key(s[0]) <= key(s[j - 1]);
      } else {
        assert r[i] == s[i - 1] && r[j] == s[j - 1];
      }
    }
    forall lb | KeysAtLeast(s, key, lb) && lb <= key(x)
      ensures KeysAtLeast(r, key, lb)
    {
      forall i | 0 <= i < |r|
        ensures lb <= key(r[i])
      {
        if i > 0 {
          assert r[i] == s[i - 1];
        }
      }
    }
  }

  lemma InsertFrontSorted'<T>(y: T, tail: seq<T>, key: T -> int)
    requires SortedByKey(tail, key)
    requires KeysAtLeast(tail, key, key(y))
    ensures SortedByKey([y] + tail, key)
    ensures forall lb :: KeysAtLeast(tail, key, lb) && lb <= key(y) ==> KeysAtLeast([y] + tail, key, lb)
  {
    var r := [y] + tail;
    forall i, j | 0 <= i < j < |r|
      ensures key(r[i]) <= key(r[j])
    {
      assert r[j] == tail[j - 1];
      if i > 0 {
        assert r[i] == tail[i - 1];
      }
    }
    forall lb | KeysAtLeast(tail, key, lb) && lb <= key(y)
      ensures KeysAtLeast(r, key, lb)
    {
      forall i | 0 <= i < |r|
        ensures lb <= key(r[i])
      {
        if i > 0 {
          assert r[i] == tail[i - 1];
        }
      }
    }
  }

  lemma InsertFrontKeys<T>(x: T, s: seq<T>, key: T -> int)
    ensures forall k :: WithKey([x] + s, key, k) == (if key(x) == k then [x] else []) + WithKey(s, key, k)
  {
    forall k
      ensures WithKey([x] + s, key, k) == (if key(x) == k then [x] else []) + WithKey(s, key, k)
    {
      assert ([x] + s)[1..] == s;
    }
  }

  /** Stable sort: `sorted(s, key=key)`. */
  function StableSortByKey<T>(s: seq<T>, key: T -> int): (r: seq<T>)
    ensures SortedByKey(r, key)
    ensures multiset(r) == multiset(s)
    ensures |r| == |s|
    ensures forall k :: WithKey(r, key, k) == WithKey(s, key, k)
  {
    if |s| == 0 then []
    else
      var rest := StableSortByKey(s[1..], key);
      assert s == [s[0]] + s[1..];
      var r := InsertByKey(s[0], rest, key);
      InsertByKeySorted(s[0], rest, key);
      InsertByKeyMultiset(s[0], rest, key);
      InsertByKeyKeys(s[0], rest, key);
      r
  }
}
