/** Python's slice `s[start:stop]` with integer bounds: negative bounds count from
    the end, and both bounds are clamped to the sequence. */
module PySeq {

  /** Where a slice bound lands in a sequence of length `len`. */
  function SliceBound(i: int, len: nat): (b: nat)
    ensures b <= len
    ensures 0 <= i <= len ==> b == i
    ensures i > len ==> b == len
    ensures -(len as int) <= i < 0 ==> b == len + i
    ensures i < -(len as int) ==> b == 0
  {
    if i < 0 then (if i + len < 0 then 0 else i + len)
    else if i > len then len
    else i
  }

  /** `s[start:stop]`. */
  function Slice<T>(s: seq<T>, start: int, stop: int): (r: seq<T>)
    ensures var a, b := SliceBound(start, |s|), SliceBound(stop, |s|);
      |r| == (if a <= b then b - a else 0) &&
      forall m :: 0 <= m < |r| ==> r[m] == s[a + m]
  {
    var a, b := SliceBound(start, |s|), SliceBound(stop, |s|);
    if a <= b then s[a..b] else []
  }

  /** The positions `k >= i` of `s` whose element satisfies `p`, in increasing order:
      `np.where(mask)[0]`, or `[k for k, e in enumerate(s) if p(e)]` when `i` is 0. */
  function Where<T>(s: seq<T>, p: T -> bool, i: nat): (r: seq<nat>)
    requires i <= |s|
    ensures forall j :: 0 <= j < |r| ==> i <= r[j] < |s| && p(s[r[j]])
    ensures forall k :: i <= k < |s| && p(s[k]) ==> k in r
    ensures forall j, j' :: 0 <= j < j' < |r| ==> r[j] < r[j']
    decreases |s| - i
  {
    if i == |s| then []
    else if p(s[i]) then [i] + Where(s, p, i + 1)
    else Where(s, p, i + 1)
  }

  /** Nothing before the first position found, and nothing after the last, satisfies
      `p`. */
  lemma {:induction false} WhereOutside<T>(s: seq<T>, p: T -> bool, i: nat)
    requires i <= |s|
    ensures var r := Where(s, p, i);
      (forall k :: i <= k < |s| && (|r| == 0 || k < r[0]) ==> !p(s[k])) &&
      (|r| > 0 ==> forall k :: r[|r| - 1] < k < |s| ==> !p(s[k]))
    decreases |s| - i
  {
    if i < |s| {
      WhereOutside(s, p, i + 1);
      var rest := Where(s, p, i + 1);
      if p(s[i]) {
        var r := [i] + rest;
        assert Where(s, p, i) == r;
        assert r[0] == i;
        assert r[|r| - 1] == if |rest| == 0 then i else rest[|rest| - 1];
      } else {
        assert Where(s, p, i) == rest;
      }
    }
  }

  /** No position satisfies `p`: nothing is found. */
  lemma {:induction false} WhereNone<T>(s: seq<T>, p: T -> bool, i: nat)
    requires i <= |s|
    requires forall k :: i <= k < |s| ==> !p(s[k])
    ensures Where(s, p, i) == []
    decreases |s| - i
  {
    if i < |s| {
      WhereNone(s, p, i + 1);
    }
  }

  /** Exactly one position satisfies `p`: it alone is found. */
  lemma {:induction false} WhereSingle<T>(s: seq<T>, p: T -> bool, i: nat, k0: nat)
    requires i <= k0 < |s|
    requires forall k :: i <= k < |s| ==> (p(s[k]) <==> k == k0)
    ensures Where(s, p, i) == [k0]
    decreases |s| - i
  {
    if i < k0 {
      WhereSingle(s, p, i + 1, k0);
    } else {
      WhereNone(s, p, i + 1);
    }
  }

  /** `s[j]` for a Python index `j`: a negative one counts from the end. */
  function PyIndex<T>(s: seq<T>, j: int): (x: T)
    requires -|s| <= j < |s|
    ensures 0 <= j ==> x == s[j]
    ensures j < 0 ==> x == s[|s| + j]
  {
    if j < 0 then s[|s| + j] else s[j]
  }
}
