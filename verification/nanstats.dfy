/** numpy's NaN-aware reductions over one row of samples: `np.nansum` and
    `np.nanmean`. A NaN sample is `None`. */
module NanStats {
  import opened Wrappers

  function Sum(s: seq<real>): real {
    if |s| == 0 then 0.0 else s[0] + Sum(s[1..])
  }

  /** The non-NaN samples of `s`, in order. */
  function Present(s: seq<Option<real>>): (r: seq<real>)
    ensures |r| <= |s|
  {
    if |s| == 0 then []
    else (if s[0].Some? then [s[0].value] else []) + Present(s[1..])
  }

  /** The non-NaN samples are exactly the values some sample holds. */
  lemma {:induction false} PresentMembers(s: seq<Option<real>>)
    ensures forall x :: x in Present(s) <==> Some(x) in s
  {
    if |s| > 0 {
      PresentMembers(s[1..]);
      assert forall y :: y in s <==> y == s[0] || y in s[1..];
    }
  }

  /** `np.nansum`: NaN samples count as zero, so an all-NaN row sums to 0. */
  function NanSum(s: seq<Option<real>>): (r: real)
    ensures (forall i :: 0 <= i < |s| ==> s[i].None?) ==> r == 0.0
  {
    if |s| == 0 then 0.0
    else (if s[0].Some? then s[0].value else 0.0) + NanSum(s[1..])
  }

  /** `np.nanmean`: the mean of the non-NaN samples, NaN when there are none. */
  function NanMean(s: seq<Option<real>>): (r: Option<real>)
    ensures r.None? <==> |Present(s)| == 0
    ensures r.Some? ==> r.value * (|Present(s)| as real) == Sum(Present(s))
  {
    var p := Present(s);
    if |p| == 0 then None
    else
      Some(Mean(Sum(p), |p| as real))
  }

  /** The value that, taken `n` times, adds up to `t`. */
  function Mean(t: real, n: real): (m: real)
    requires n != 0.0
    ensures m * n == t
  {
    t / n
  }

  /** A row without a single non-NaN sample has nothing to average. */
  lemma {:induction false} NoneOnlyNoPresent(s: seq<Option<real>>)
    requires forall i :: 0 <= i < |s| ==> s[i].None?
    ensures Present(s) == []
  {
    if |s| > 0 {
      NoneOnlyNoPresent(s[1..]);
    }
  }

  /** The NaN-sum is the plain sum of the non-NaN samples. */
  lemma {:induction false} NanSumIsSumOfPresent(s: seq<Option<real>>)
    ensures NanSum(s) == Sum(Present(s))
  {
    if |s| > 0 {
      NanSumIsSumOfPresent(s[1..]);
      SumConcat(if s[0].Some? then [s[0].value] else [], Present(s[1..]));
    }
  }

  lemma {:induction false} SumConcat(a: seq<real>, b: seq<real>)
    ensures Sum(a + b) == Sum(a) + Sum(b)
  {
    if |a| == 0 {
      assert a + b == b;
    } else {
      SumConcat(a[1..], b);
      assert (a + b)[0] == a[0];
      assert (a + b)[1..] == a[1..] + b;
    }
  }

  /** Removing one element from a sequence lowers its sum by that element. */
  lemma SumRemove(b: seq<real>, j: nat)
    requires j < |b|
    ensures Sum(b) == b[j] + Sum(b[..j] + b[j + 1..])
  {
    assert b == b[..j] + [b[j]] + b[j + 1..];
    SumConcat(b[..j] + [b[j]], b[j + 1..]);
    SumConcat(b[..j], [b[j]]);
    SumConcat(b[..j], b[j + 1..]);
  }

  /** The sum depends only on the multiset of values, not on their order. */
  lemma {:induction false} SumPermutation(a: seq<real>, b: seq<real>)
    requires multiset(a) == multiset(b)
    ensures Sum(a) == Sum(b)
  {
    if |a| == 0 {
      assert |b| == |multiset(b)| == 0;
    } else {
      var x := a[0];
      assert x in multiset(b);
      var j :| 0 <= j < |b| && b[j] == x;
      var a', b' := a[1..], b[..j] + b[j + 1..];
      RemoveMatching(a, b, j);
      SumPermutation(a', b');
      SumRemove(b, j);
      assert Sum(a) == x + Sum(a');
    }
  }

  /** Taking the same value out of two permutations of each other leaves two
      permutations of each other. */
  lemma RemoveMatching<T>(a: seq<T>, b: seq<T>, j: nat)
    requires multiset(a) == multiset(b)
    requires 0 < |a| && j < |b| && b[j] == a[0]
    ensures multiset(a[1..]) == multiset(b[..j] + b[j + 1..])
  {
    var x, a', b1, b2 := a[0], a[1..], b[..j], b[j + 1..];
    assert a == [x] + a';
    assert b == b1 + [x] + b2;
    var ma, m1, m2 := multiset(a'), multiset(b1), multiset(b2);
    assert multiset(a) == multiset{x} + ma;
    assert multiset(b) == m1 + multiset{x} + m2;
    assert multiset(b1 + b2) == m1 + m2;
    forall y
      ensures ma[y] == (m1 + m2)[y]
    {
      assert multiset(a)[y] == multiset(b)[y];
    }
  }

  /** Reordering the samples reorders the non-NaN ones the same way. */
  lemma {:induction false} PresentMultiset(s: seq<Option<real>>)
    ensures forall x :: multiset(Present(s))[x] == multiset(s)[Some(x)]
  {
    if |s| > 0 {
      PresentMultiset(s[1..]);
      assert s == [s[0]] + s[1..];
    }
  }

  /** `np.nanmean` ignores the order of the samples. */
  lemma NanMeanPermutation(a: seq<Option<real>>, b: seq<Option<real>>)
    requires multiset(a) == multiset(b)
    ensures NanMean(a) == NanMean(b)
  {
    PresentMultiset(a);
    PresentMultiset(b);
    assert multiset(Present(a)) == multiset(Present(b)) by {
      forall x
        ensures multiset(Present(a))[x] == multiset(Present(b))[x]
      {
      }
    }
    assert |Present(a)| == |multiset(Present(a))| == |multiset(Present(b))| == |Present(b)|;
    SumPermutation(Present(a), Present(b));
  }

  /** The mean of the non-NaN samples lies between their minimum and maximum. */
  lemma NanMeanBounds(s: seq<Option<real>>, lo: real, hi: real)
    requires forall i :: 0 <= i < |s| && s[i].Some? ==> lo <= s[i].value <= hi
    requires NanMean(s).Some?
    ensures lo <= NanMean(s).value <= hi
  {
    var p := Present(s);
    PresentMembers(s);
    forall x | x in p
      ensures lo <= x <= hi
    {
      var i :| 0 <= i < |s| && s[i] == Some(x);
    }
    SumAtLeast(p, lo);
    SumAtMost(p, hi);
    var n := |p| as real;
    var v := NanMean(s).value;
    assert v * n == Sum(p);
    ScaleBounds(v, n, lo, hi);
  }

  /** A lower bound on every non-NaN sample bounds their mean. */
  lemma NanMeanAtLeast(s: seq<Option<real>>, lo: real)
    requires forall i :: 0 <= i < |s| && s[i].Some? ==> lo <= s[i].value
    requires NanMean(s).Some?
    ensures lo <= NanMean(s).value
  {
    var p := Present(s);
    PresentMembers(s);
    forall x | x in p
      ensures lo <= x
    {
      var i :| 0 <= i < |s| && s[i] == Some(x);
    }
    SumAtLeast(p, lo);
    var n := |p| as real;
    var v := NanMean(s).value;
    assert v * n == Sum(p);
    assert lo == (lo * n) / n && v == (v * n) / n;
  }

  lemma {:induction false} SumAtLeast(p: seq<real>, lo: real)
    requires forall x :: x in p ==> lo <= x
    ensures lo * (|p| as real) <= Sum(p)
  {
    if |p| > 0 {
      assert p[0] in p;
      assert forall x :: x in p[1..] ==> x in p;
      SumAtLeast(p[1..], lo);
      assert lo * (|p| as real) == lo + lo * (|p[1..]| as real);
    }
  }

  lemma ScaleBounds(v: real, n: real, lo: real, hi: real)
    requires n > 0.0
    requires lo * n <= v * n <= hi * n
    ensures lo <= v <= hi
  {
    assert lo == (lo * n) / n && v == (v * n) / n && hi == (hi * n) / n;
  }

  lemma {:induction false} SumAtMost(p: seq<real>, hi: real)
    requires forall x :: x in p ==> x <= hi
    ensures Sum(p) <= hi * (|p| as real)
  {
    if |p| > 0 {
      assert p[0] in p;
      assert forall x :: x in p[1..] ==> x in p;
      SumAtMost(p[1..], hi);
      assert hi * (|p| as real) == hi + hi * (|p[1..]| as real);
    }
  }

  /** `np.nanmin`: the smallest non-NaN sample, NaN when there is none. (numpy raises
      ValueError on an empty array and warns on an all-NaN one; both come out as
      `None` here and the callers turn them into the error they end in.) */
  function NanMin(s: seq<Option<real>>): (r: Option<real>)
    ensures r.None? <==> forall i :: 0 <= i < |s| ==> s[i].None?
    ensures r.Some? ==> Some(r.value) in s
    ensures r.Some? ==> forall i :: 0 <= i < |s| && s[i].Some? ==> r.value <= s[i].value
  {
    if |s| == 0 then None
    else
      var m := NanMin(s[1..]);
      assert forall i :: 1 <= i < |s| ==> s[i] == s[1..][i - 1];
      if s[0].None? then m
      else if m.None? || s[0].value <= m.value then s[0]
      else m
  }

  /** `np.nanmax`: the largest non-NaN sample, NaN when there is none. */
  function NanMax(s: seq<Option<real>>): (r: Option<real>)
    ensures r.None? <==> forall i :: 0 <= i < |s| ==> s[i].None?
    ensures r.Some? ==> Some(r.value) in s
    ensures r.Some? ==> forall i :: 0 <= i < |s| && s[i].Some? ==> s[i].value <= r.value
  {
    if |s| == 0 then None
    else
      var m := NanMax(s[1..]);
      assert forall i :: 1 <= i < |s| ==> s[i] == s[1..][i - 1];
      if s[0].None? then m
      else if m.None? || s[0].value >= m.value then s[0]
      else m
  }
}
