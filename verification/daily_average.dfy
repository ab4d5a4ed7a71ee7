/** Per-calendar-day averaging of a current component sampled on a
    longitude x latitude x time grid (`calculate_daily_average_component`,
    `calculate_average_current`). Timestamps arrive as day ordinals
    (`datetime.toordinal()` of each converted timestamp); a NaN sample is `None`. */
module DailyAverage {
  import opened Wrappers
  import opened Ordering
  import opened NanStats
  import opened Grid

  ghost predicate IncreasingDays(s: seq<int>) {
    forall i, j :: 0 <= i < j < |s| ==> s[i] < s[j]
  }

  /** `np.unique` of the day ordinals: ascending, without repeats, exactly the days
      that occur. The ordinals go through the real-valued `np.unique` and back. */
  function UniqueDays(t: seq<int>): (days: seq<int>)
    ensures IncreasingDays(days)
    ensures forall d :: d in days <==> d in t
    ensures |days| <= |t|
  {
    var u := SortedUnique(AsReals(t));
    WholeFloors(t, u);
    Floors(u)
  }

  function AsReals(t: seq<int>): (tr: seq<real>)
    ensures |tr| == |t| && forall k :: 0 <= k < |t| ==> tr[k] == t[k] as real
  {
    seq(|t|, k requires 0 <= k < |t| => t[k] as real)
  }

  function Floors(u: seq<real>): (days: seq<int>)
    ensures |days| == |u| && forall j :: 0 <= j < |u| ==> days[j] == u[j].Floor
  {
    seq(|u|, j requires 0 <= j < |u| => u[j].Floor)
  }

  /** The distinct values of a list of whole numbers, floored back, are the
      distinct whole numbers in the same order. */
  lemma WholeFloors(t: seq<int>, u: seq<real>)
    requires StrictlyIncreasing(u)
    requires forall y :: y in u <==> y in AsReals(t)
    ensures IncreasingDays(Floors(u))
    ensures forall d :: d in Floors(u) <==> d in t
  {
    var tr, days := AsReals(t), Floors(u);
    forall j | 0 <= j < |u|
      ensures days[j] as real == u[j]
    {
      var z := u[j];
      assert z in tr;
      var k :| 0 <= k < |tr| && tr[k] == z;
    }
    forall d | d in t
      ensures d in days
    {
      var k :| 0 <= k < |t| && t[k] == d;
      assert tr[k] in u;
      var j :| 0 <= j < |u| && u[j] == tr[k];
      assert days[j] == d;
    }
    forall d | d in days
      ensures d in t
    {
      var j :| 0 <= j < |days| && days[j] == d;
      var z := u[j];
      assert z in tr;
      var k :| 0 <= k < |tr| && tr[k] == z;
      assert t[k] == d;
    }
  }

  /** Each sample of one cell paired with its day. */
  function Pairs(t: seq<int>, s: Series): (z: seq<(int, Option<real>)>)
    requires |t| == |s|
    ensures |z| == |t|
    ensures forall k :: 0 <= k < |t| ==> z[k] == (t[k], s[k])
  {
    seq(|t|, k requires 0 <= k < |t| => (t[k], s[k]))
  }

  /** `u[x, y, daily_mask]`: the samples taken on day `d`, in time order. */
  function OnDay(z: seq<(int, Option<real>)>, d: int): (r: Series)
    ensures |r| <= |z|
  {
    if |z| == 0 then []
    else (if z[0].0 == d then [z[0].1] else []) + OnDay(z[1..], d)
  }

  /** The samples of a day are exactly the day's pairs, counted with multiplicity. */
  lemma {:induction false} OnDayMultiset(z: seq<(int, Option<real>)>, d: int)
    ensures forall v :: multiset(OnDay(z, d))[v] == multiset(z)[(d, v)]
  {
    if |z| > 0 {
      OnDayMultiset(z[1..], d);
      assert z == [z[0]] + z[1..];
    }
  }

  /** A day that occurs contributes at least one sample. */
  lemma {:induction false} OnDayNonEmpty(z: seq<(int, Option<real>)>, d: int, k: nat)
    requires k < |z| && z[k].0 == d
    ensures |OnDay(z, d)| > 0
  {
    if k > 0 && z[0].0 != d {
      OnDayNonEmpty(z[1..], d, k - 1);
    }
  }

  /** One output cell: the NaN-mean of the day's samples when the day's mask selects
      anything, otherwise the NaN the output was initialised with. */
  function DayMean(t: seq<int>, s: Series, d: int): Option<real>
    requires |t| == |s|
  {
    if d in t then NanMean(OnDay(Pairs(t, s), d)) else None
  }

  /** `calculate_daily_average_component(u, t)`: the averaged field (same first two
      dimensions, one slice per distinct day) and the days in ascending order.
      `np.squeeze` turns a one-element `t` into a 0-d array, whose iteration raises
      TypeError; a day mask whose length differs from the time dimension raises
      IndexError. */
  function DailyAverageComponent(u: Field, nlat: nat, nt: nat, t: seq<int>): (r: Result<(Field, seq<int>), ExcClass>)
    requires Shaped(u, nlat, nt)
    ensures r.Err? <==> |t| == 1 || (|t| > 0 && nt != |t|)
    ensures r.Err? ==> r.error == (if |t| == 1 then TypeError else IndexError)
    ensures r.Ok? ==>
      var (avg, days) := r.value;
      days == UniqueDays(t) && |avg| == |u| && Shaped(avg, nlat, |days|)
  {
    if |t| == 1 then Err(TypeError)
    else
      var days := UniqueDays(t);
      if |days| > 0 && nt != |t| then Err(IndexError)
      else
        assert |t| > 0 ==> t[0] in days;
        Ok((Averaged(u, nlat, nt, t, days), days))
  }

  /** The output array: one slice per listed day, each cell its day mean. */
  function Averaged(u: Field, nlat: nat, nt: nat, t: seq<int>, days: seq<int>): (avg: Field)
    requires Shaped(u, nlat, nt) && (|days| > 0 ==> nt == |t|)
    ensures |avg| == |u| && Shaped(avg, nlat, |days|)
    ensures forall x, y, i :: 0 <= x < |u| && 0 <= y < nlat && 0 <= i < |days| ==>
      avg[x][y][i] == DayMean(t, u[x][y], days[i])
  {
    seq(|u|, x requires 0 <= x < |u| =>
      seq(nlat, y requires 0 <= y < nlat =>
        seq(|days|, i requires 0 <= i < |days| => DayMean(t, u[x][y], days[i]))))
  }

  /** Two outputs of the same shape with the same cells are the same array. */
  lemma FieldExt(a: Field, b: Field, nlat: nat, n: nat)
    requires |a| == |b| && Shaped(a, nlat, n) && Shaped(b, nlat, n)
    requires forall x, y, i :: 0 <= x < |a| && 0 <= y < nlat && 0 <= i < n ==> a[x][y][i] == b[x][y][i]
    ensures a == b
  {
    forall x | 0 <= x < |a|
      ensures a[x] == b[x]
    {
      forall y | 0 <= y < nlat
        ensures a[x][y] == b[x][y]
      {
      }
    }
  }

  /** Every listed day occurs in `t`, so the `np.any(daily_mask)` guard always holds:
      slice `i` at a cell is the NaN-mean of that cell's samples from day `i`, NaN
      exactly when all of them are NaN. */
  lemma DailyCell(u: Field, nlat: nat, nt: nat, t: seq<int>, x: nat, y: nat, i: nat)
    requires Shaped(u, nlat, nt)
    requires DailyAverageComponent(u, nlat, nt, t).Ok?
    requires x < |u| && y < nlat && i < |UniqueDays(t)|
    ensures var (avg, days) := DailyAverageComponent(u, nlat, nt, t).value;
      var samples := OnDay(Pairs(t, u[x][y]), days[i]);
      |samples| > 0 &&
      avg[x][y][i] == NanMean(samples) &&
      (avg[x][y][i].None? <==> forall k :: 0 <= k < |samples| ==> samples[k].None?)
  {
    var days := UniqueDays(t);
    var d := days[i];
    assert d in t;
    var k :| 0 <= k < |t| && t[k] == d;
    var samples := OnDay(Pairs(t, u[x][y]), d);
    OnDayNonEmpty(Pairs(t, u[x][y]), d, k);
    if forall k :: 0 <= k < |samples| ==> samples[k].None? {
      NoneOnlyNoPresent(samples);
    } else {
      var k' :| 0 <= k' < |samples| && samples[k'].Some?;
      var w := samples[k'].value;
      assert Some(w) in samples;
      PresentMembers(samples);
      assert w in Present(samples);
    }
  }

  /** One cell's day mean depends only on the multiset of its (day, sample) pairs. */
  lemma DayMeanPermutation(t: seq<int>, s: Series, t': seq<int>, s': Series, d: int)
    requires |t| == |s| && |t'| == |s'|
    requires multiset(Pairs(t, s)) == multiset(Pairs(t', s'))
    requires d in t <==> d in t'
    ensures DayMean(t, s, d) == DayMean(t', s', d)
  {
    var z, z' := Pairs(t, s), Pairs(t', s');
    OnDayMultiset(z, d);
    OnDayMultiset(z', d);
    assert multiset(OnDay(z, d)) == multiset(OnDay(z', d)) by {
      forall v
        ensures multiset(OnDay(z, d))[v] == multiset(OnDay(z', d))[v]
      {
      }
    }
    NanMeanPermutation(OnDay(z, d), OnDay(z', d));
  }

  /** The result depends only on the multiset of (day, sample) pairs at every cell:
      reordering the time axis together with the timestamps changes nothing. */
  lemma DailyAveragePermutation(u: Field, u': Field, nlat: nat, nt: nat, t: seq<int>, t': seq<int>)
    requires Shaped(u, nlat, nt) && Shaped(u', nlat, nt) && |u| == |u'|
    requires |t| == nt && |t'| == nt
    requires multiset(t) == multiset(t')
    requires forall x, y :: 0 <= x < |u| && 0 <= y < nlat ==>
      multiset(Pairs(t, u[x][y])) == multiset(Pairs(t', u'[x][y]))
    ensures DailyAverageComponent(u, nlat, nt, t) == DailyAverageComponent(u', nlat, nt, t')
  {
    assert forall d :: d in t <==> d in t' by {
      forall d
        ensures d in t <==> d in t'
      {
        assert d in t <==> d in multiset(t);
        assert d in t' <==> d in multiset(t');
      }
    }
    StrictlyIncreasingDaysUnique(UniqueDays(t), UniqueDays(t'));
    var days := UniqueDays(t);
    forall x, y, i | 0 <= x < |u| && 0 <= y < nlat && 0 <= i < |days|
      ensures DayMean(t, u[x][y], days[i]) == DayMean(t', u'[x][y], days[i])
    {
      DayMeanPermutation(t, u[x][y], t', u'[x][y], days[i]);
    }
    FieldExt(Averaged(u, nlat, nt, t, days), Averaged(u', nlat, nt, t', days), nlat, |days|);
  }

  /** Two ascending duplicate-free day lists with the same members are equal. */
  lemma {:induction false} StrictlyIncreasingDaysUnique(a: seq<int>, b: seq<int>)
    requires IncreasingDays(a) && IncreasingDays(b)
    requires forall d :: d in a <==> d in b
    ensures a == b
  {
    var ar := seq(|a|, i requires 0 <= i < |a| => a[i] as real);
    var br := seq(|b|, i requires 0 <= i < |b| => b[i] as real);
    assert forall y :: y in ar <==> y in br by {
      forall y
        ensures y in ar ==> y in br
        ensures y in br ==> y in ar
      {
        if y in ar {
          var i :| 0 <= i < |ar| && ar[i] == y;
          assert a[i] in b;
          var j :| 0 <= j < |b| && b[j] == a[i];
          assert br[j] == y;
        }
        if y in br {
          var j :| 0 <= j < |br| && br[j] == y;
          assert b[j] in a;
          var i :| 0 <= i < |a| && a[i] == b[j];
          assert ar[i] == y;
        }
      }
    }
    StrictlyIncreasingUnique(ar, br);
    assert forall i :: 0 <= i < |a| ==> a[i] == b[i] by {
      forall i | 0 <= i < |a|
        ensures a[i] == b[i]
      {
        assert ar[i] == br[i];
      }
    }
  }

  /** `calculate_average_current(u, v, t)`: both components averaged over the same
      timestamps, each keeping its own spatial shape; `t2` is the second call's day
      list. The first call's exception wins. */
  function AverageCurrent(u: Field, v: Field, nlatU: nat, nlatV: nat, ntu: nat, ntv: nat, t: seq<int>)
    : (r: Result<(Field, Field, seq<int>), ExcClass>)
    requires Shaped(u, nlatU, ntu) && Shaped(v, nlatV, ntv)
    ensures r.Ok? <==> |t| == 0 || (|t| != 1 && ntu == |t| && ntv == |t|)
    ensures r.Err? ==> r.error == (if |t| == 1 then TypeError else IndexError)
    ensures r.Ok? ==>
      var (ua, va, days) := r.value;
      days == UniqueDays(t) && |ua| == |u| && |va| == |v|
      && Shaped(ua, nlatU, |days|) && Shaped(va, nlatV, |days|) &&
      ua == DailyAverageComponent(u, nlatU, ntu, t).value.0 &&
      va == DailyAverageComponent(v, nlatV, ntv, t).value.0 &&
      days == DailyAverageComponent(u, nlatU, ntu, t).value.1
  {
    var (ua, _) :- DailyAverageComponent(u, nlatU, ntu, t);
    var (va, days) :- DailyAverageComponent(v, nlatV, ntv, t);
    Ok((ua, va, days))
  }
}
