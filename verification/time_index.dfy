/** `find_time_indices`: the window around [t1, t2] in a list of timestamps, found
    with Python's `bisect.bisect_left` / `bisect.bisect_right`. Timestamps are
    integers (seconds); Python compares datetimes the same way. */
module TimeIndex {

  ghost predicate Sorted(a: seq<int>) {
    forall i, j :: 0 <= i < j < |a| ==> a[i] <= a[j]
  }

  /** The loop of `bisect.bisect_left(a, x, lo, hi)`, step by step. It is defined for
      any list, sorted or not. */
  function BisectLeft(a: seq<int>, x: int, lo: nat, hi: nat): (r: nat)
    requires lo <= hi <= |a|
    ensures lo <= r <= hi
    decreases hi - lo
  {
    if lo < hi then
      var mid := (lo + hi) / 2;
      if a[mid] < x then BisectLeft(a, x, mid + 1, hi) else BisectLeft(a, x, lo, mid)
    else lo
  }

  /** The loop of `bisect.bisect_right(a, x, lo, hi)`. */
  function BisectRight(a: seq<int>, x: int, lo: nat, hi: nat): (r: nat)
    requires lo <= hi <= |a|
    ensures lo <= r <= hi
    decreases hi - lo
  {
    if lo < hi then
      var mid := (lo + hi) / 2;
      if x < a[mid] then BisectRight(a, x, lo, mid) else BisectRight(a, x, mid + 1, hi)
    else lo
  }

  /** `find_time_indices(time, t1, t2)`, clamps included. */
  function FindTimeIndices(time: seq<int>, t1: int, t2: int): (r: (int, int))
    ensures |time| == 0 ==> r == (-1, -1)
    ensures |time| > 0 ==> -1 <= r.0 < |time| && 0 <= r.1 <= |time|
  {
    if |time| == 0 then (-1, -1)
    else
      var i1 := BisectLeft(time, t1, 0, |time|) - 1;
      var i2 := BisectRight(time, t2, 0, |time|);
      var i1 := if -1 < i1 then i1 else -1;
      var i2 := if |time| < i2 then |time| else i2;
      (i1, i2)
  }

  /** The two clamps never change anything: the bisect results already lie in
      [0, len(time)]. */
  lemma ClampsAreNoOps(time: seq<int>, t1: int, t2: int)
    requires |time| > 0
    ensures FindTimeIndices(time, t1, t2) == (BisectLeft(time, t1, 0, |time|) - 1, BisectRight(time, t2, 0, |time|))
  {
  }

  /** On any list (sorted or not), the left search for `x` stops no later than the
      right search for a `y >= x`: both walk the same path until they part, and then
      the left one turns left. */
  lemma {:induction false} BisectLeftBeforeRight(a: seq<int>, x: int, y: int, lo: nat, hi: nat)
    requires lo <= hi <= |a|
    requires x <= y
    ensures BisectLeft(a, x, lo, hi) <= BisectRight(a, y, lo, hi)
    decreases hi - lo
  {
    if lo < hi {
      var mid := (lo + hi) / 2;
      if a[mid] < x {
        BisectLeftBeforeRight(a, x, y, mid + 1, hi);
      } else if y < a[mid] {
        BisectLeftBeforeRight(a, x, y, lo, mid);
      }
    }
  }

  /** If t1 <= t2 the window is non-empty in index terms: i1 < i2. */
  lemma WindowOrdered(time: seq<int>, t1: int, t2: int)
    requires |time| > 0
    requires t1 <= t2
    ensures FindTimeIndices(time, t1, t2).0 < FindTimeIndices(time, t1, t2).1
  {
    BisectLeftBeforeRight(time, t1, t2, 0, |time|);
  }

  /** On a sorted list, `bisect_left` returns the number of entries below `x`. */
  lemma {:induction false} BisectLeftSorted(a: seq<int>, x: int, lo: nat, hi: nat)
    requires Sorted(a)
    requires lo <= hi <= |a|
    requires forall i :: 0 <= i < lo ==> a[i] < x
    requires forall i :: hi <= i < |a| ==> x <= a[i]
    ensures forall i :: 0 <= i < BisectLeft(a, x, lo, hi) ==> a[i] < x
    ensures forall i :: BisectLeft(a, x, lo, hi) <= i < |a| ==> x <= a[i]
    decreases hi - lo
  {
    if lo < hi {
      var mid := (lo + hi) / 2;
      if a[mid] < x {
        BisectLeftSorted(a, x, mid + 1, hi);
      } else {
        BisectLeftSorted(a, x, lo, mid);
      }
    }
  }

  /** On a sorted list, `bisect_right` returns the number of entries not above `x`. */
  lemma {:induction false} BisectRightSorted(a: seq<int>, x: int, lo: nat, hi: nat)
    requires Sorted(a)
    requires lo <= hi <= |a|
    requires forall i :: 0 <= i < lo ==> a[i] <= x
    requires forall i :: hi <= i < |a| ==> x < a[i]
    ensures forall i :: 0 <= i < BisectRight(a, x, lo, hi) ==> a[i] <= x
    ensures forall i :: BisectRight(a, x, lo, hi) <= i < |a| ==> x < a[i]
    decreases hi - lo
  {
    if lo < hi {
      var mid := (lo + hi) / 2;
      if x < a[mid] {
        BisectRightSorted(a, x, lo, mid);
      } else {
        BisectRightSorted(a, x, mid + 1, hi);
      }
    }
  }

  /** For a sorted list, i1 is the last index whose timestamp is strictly before t1
      (-1 when there is none), and i2 the first index strictly after t2 (len(time)
      when there is none). */
  lemma FindTimeIndicesSorted(time: seq<int>, t1: int, t2: int)
    requires Sorted(time)
    requires |time| > 0
    ensures var (i1, i2) := FindTimeIndices(time, t1, t2);
      (forall i :: 0 <= i <= i1 ==> time[i] < t1) &&
      (forall i :: i1 < i < |time| ==> t1 <= time[i]) &&
      (forall i :: 0 <= i < i2 ==> time[i] <= t2) &&
      (forall i :: i2 <= i < |time| ==> t2 < time[i])
  {
    BisectLeftSorted(time, t1, 0, |time|);
    BisectRightSorted(time, t2, 0, |time|);
  }

  /** When no timestamp is before t1 the code yields i1 = -1 (the function's own
      description says 0); this holds for any list. */
  lemma {:induction false} AllAfterStartGivesMinusOne(time: seq<int>, t1: int, t2: int)
    requires |time| > 0
    requires forall i :: 0 <= i < |time| ==> t1 <= time[i]
    ensures FindTimeIndices(time, t1, t2).0 == -1
  {
    BisectLeftAllAbove(time, t1, 0, |time|);
  }

  lemma {:induction false} BisectLeftAllAbove(a: seq<int>, x: int, lo: nat, hi: nat)
    requires lo <= hi <= |a|
    requires forall i :: 0 <= i < |a| ==> x <= a[i]
    ensures BisectLeft(a, x, lo, hi) == lo
    decreases hi - lo
  {
    if lo < hi {
      BisectLeftAllAbove(a, x, lo, (lo + hi) / 2);
    }
  }

  /** The module's own example: seven strictly increasing timestamps, t1 equal to
      the second and t2 to the sixth, give (0, 6). */
  lemma SevenElementExample(time: seq<int>)
    requires |time| == 7
    requires forall i :: 0 <= i < 6 ==> time[i] < time[i + 1]
    ensures FindTimeIndices(time, time[1], time[5]) == (0, 6)
  {
    assert Sorted(time) by {
      forall i, j | 0 <= i < j < |time|
        ensures time[i] <= time[j]
      {
        StepChain(time, i, j);
      }
    }
    FindTimeIndicesSorted(time, time[1], time[5]);
  }

  lemma {:induction false} StepChain(a: seq<int>, i: nat, j: nat)
    requires i <= j < |a|
    requires forall k :: 0 <= k < |a| - 1 ==> a[k] < a[k + 1]
    ensures a[i] <= a[j]
    decreases j - i
  {
    if i < j {
      StepChain(a, i + 1, j);
    }
  }
}
