/** `extract_curves`: for every time column of a depth x time matrix of
    Brunt-Vaisala frequencies, the first and last depth index whose value exceeds a
    threshold; columns without such a value are filled by scipy's
    `interp1d(kind='linear', fill_value='extrapolate')` over the columns that have
    one, and every value is then passed through Python's `round`.
    A NaN entry is `None`; it never exceeds the threshold. */
module Envelope {
  import opened Wrappers
  import opened Ordering
  import opened PySeq
  import opened PyNum

  /** Rows are depths, columns are times. */
  type Matrix = seq<seq<Option<real>>>

  predicate Rectangular(m: Matrix, times: nat) {
    forall i :: 0 <= i < |m| ==> |m[i]| == times
  }

  /** `e > threshold`; a comparison with NaN is false. */
  predicate Exceeds(e: Option<real>, threshold: real) {
    e.Some? && e.value > threshold
  }

  /** `bv_matrix[:, t]`. */
  function Column(m: Matrix, times: nat, t: nat): (c: seq<Option<real>>)
    requires Rectangular(m, times) && t < times
    ensures |c| == |m|
    ensures forall i :: 0 <= i < |m| ==> c[i] == m[i][t]
  {
    seq(|m|, i requires 0 <= i < |m| => m[i][t])
  }

  /** The first and last depth index of a column whose value exceeds the threshold,
      or `None` when there is none. */
  function ColumnBounds(col: seq<Option<real>>, threshold: real): (r: Option<(nat, nat)>)
    ensures r.None? <==> forall i :: 0 <= i < |col| ==> !Exceeds(col[i], threshold)
    ensures r.Some? ==>
      var (first, last) := r.value;
      first <= last < |col| &&
      Exceeds(col[first], threshold) && Exceeds(col[last], threshold) &&
      (forall i :: 0 <= i < first ==> !Exceeds(col[i], threshold)) &&
      (forall i :: last < i < |col| ==> !Exceeds(col[i], threshold))
  {
    var p := (e: Option<real>) => Exceeds(e, threshold);
    var ex := Where(col, p, 0);
    WhereOutside(col, p, 0);
    if |ex| == 0 then None
    else
      var first, last := ex[0], ex[|ex| - 1];
      assert p(col[first]) && p(col[last]);
      Some((first, last))
  }

  /** A column is valid when some entry of it exceeds the threshold. */
  predicate ValidColumn(m: Matrix, times: nat, threshold: real, t: nat)
    requires Rectangular(m, times) && t < times
  {
    ColumnBounds(Column(m, times, t), threshold).Some?
  }

  /** The boundary arrays before any filling: per time column, the first
      (`upper`) or last (`lower`) exceeding depth index as a float, NaN where no value
      exceeds. */
  function RawBoundary(m: Matrix, times: nat, threshold: real, upper: bool): (b: seq<Option<real>>)
    requires Rectangular(m, times)
    ensures |b| == times
    ensures forall t :: 0 <= t < times ==> (b[t].Some? <==> ValidColumn(m, times, threshold, t))
    ensures forall t :: 0 <= t < times && ValidColumn(m, times, threshold, t) ==>
      var cb := ColumnBounds(Column(m, times, t), threshold).value;
      b[t].value == if upper then cb.0 as real else cb.1 as real
  {
    seq(times, t requires 0 <= t < times =>
      match ColumnBounds(Column(m, times, t), threshold)
      case None => None
      case Some((first, last)) => Some(if upper then first as real else last as real))
  }

  // ---------------------------------------------------------------------------
  // scipy.interpolate.interp1d, kind='linear', fill_value='extrapolate'.

  /** `np.clip(a, lo, hi)`: when `lo > hi` the upper bound wins. */
  function Clip(a: int, lo: int, hi: int): (r: int)
    ensures lo <= hi ==> lo <= r <= hi
    ensures lo > hi ==> r == hi
  {
    if a < lo then (if lo < hi then lo else hi) else if a > hi then hi else a
  }

  /** The straight line through (xa, ya) and (xb, yb), evaluated at `x` the way
      scipy does: slope times offset from the left end, plus the left value. */
  function Line(xa: real, ya: real, xb: real, yb: real, x: real): real
    requires xa != xb
  {
    (yb - ya) / (xb - xa) * (x - xa) + ya
  }

  lemma LineEnds(xa: real, ya: real, xb: real, yb: real)
    requires xa != xb
    ensures Line(xa, ya, xb, yb, xa) == ya
    ensures Line(xa, ya, xb, yb, xb) == yb
  {
    var d := xb - xa;
    assert (yb - ya) / d * d == yb - ya;
  }

  lemma LineBetween(xa: real, ya: real, xb: real, yb: real, x: real)
    requires xa < xb && ya <= yb
    requires xa <= x <= xb
    ensures ya <= Line(xa, ya, xb, yb, x) <= yb
  {
    var d, t := xb - xa, x - xa;
    var s := (yb - ya) / d;
    assert s * d == yb - ya;
    assert 0.0 <= s && 0.0 <= t <= d;
    assert 0.0 <= s * t;
    assert 0.0 <= s * (d - t) == s * d - s * t;
  }

  /** The upper end of the segment used for `x`: a left search among the knots,
      clipped to [1, n - 1] (0 when there is a single knot, since the upper clip
      bound wins). */
  function Segment(xs: seq<real>, x: real): (hi: int)
    requires |xs| >= 1
    ensures |xs| >= 2 ==> 1 <= hi < |xs|
    ensures |xs| == 1 ==> hi == 0
  {
    Clip(SearchSortedLeft(xs, x), 1, |xs| - 1)
  }

  /** The interpolant at `x`, on the segment ending at `Segment(xs, x)` and starting
      one knot to the left (Python index -1 when there is a single knot). A
      zero-width segment divides 0 by 0, which is NaN. */
  function Interp1d(xs: seq<real>, ys: seq<real>, x: real): (r: Option<real>)
    requires |xs| == |ys| >= 1
  {
    var hi := Segment(xs, x);
    var xlo, ylo := PyIndex(xs, hi - 1), PyIndex(ys, hi - 1);
    if xlo == xs[hi] then None
    else Some(Line(xlo, ylo, xs[hi], ys[hi], x))
  }

  /** With at least two strictly increasing knots the interpolant goes through
      every knot. */
  lemma InterpAtKnot(xs: seq<real>, ys: seq<real>, j: nat)
    requires |xs| == |ys| >= 2
    requires StrictlyIncreasing(xs)
    requires j < |xs|
    ensures Interp1d(xs, ys, xs[j]) == Some(ys[j])
  {
    SearchSortedLeftFindsMember(xs, j);
    if j == 0 {
      assert Segment(xs, xs[0]) == 1;
      assert xs[0] < xs[1];
      LineEnds(xs[0], ys[0], xs[1], ys[1]);
    } else {
      assert Segment(xs, xs[j]) == j;
      assert xs[j - 1] < xs[j];
      LineEnds(xs[j - 1], ys[j - 1], xs[j], ys[j]);
    }
  }

  /** With at least two strictly increasing knots no point is NaN. */
  lemma InterpDefined(xs: seq<real>, ys: seq<real>, x: real)
    requires |xs| == |ys| >= 2
    requires StrictlyIncreasing(xs)
    ensures Interp1d(xs, ys, x).Some?
  {
    var hi := Segment(xs, x);
    assert xs[hi - 1] < xs[hi];
  }

  /** Left of the knots the interpolant continues the first segment, right of them
      the last segment. */
  lemma InterpExtrapolates(xs: seq<real>, ys: seq<real>, x: real)
    requires |xs| == |ys| >= 2
    requires StrictlyIncreasing(xs)
    ensures x <= xs[0] ==>
      Interp1d(xs, ys, x) == Some(Line(xs[0], ys[0], xs[1], ys[1], x))
    ensures xs[|xs| - 1] < x ==>
      var n := |xs|;
      Interp1d(xs, ys, x) == Some(Line(xs[n - 2], ys[n - 2], xs[n - 1], ys[n - 1], x))
  {
    var n := |xs|;
    assert xs[0] < xs[1] && xs[n - 2] < xs[n - 1];
    if x <= xs[0] {
      assert Segment(xs, x) == 1;
    }
    if xs[n - 1] < x {
      assert forall i :: 0 <= i < n ==> xs[i] < x by {
        forall i | 0 <= i < n
          ensures xs[i] < x
        {
          assert xs[i] <= xs[n - 1];
        }
      }
      SearchSortedLeftPastEnd(xs, x);
      assert Segment(xs, x) == n - 1;
    }
  }

  /** Between two neighbouring knots the interpolant stays between their values. */
  lemma InterpWithinSegment(xs: seq<real>, ys: seq<real>, j: nat, x: real)
    requires |xs| == |ys| >= 2
    requires StrictlyIncreasing(xs)
    requires 1 <= j < |xs|
    requires xs[j - 1] <= x <= xs[j]
    requires ys[j - 1] <= ys[j]
    ensures Interp1d(xs, ys, x).Some?
    ensures ys[j - 1] <= Interp1d(xs, ys, x).value <= ys[j]
  {
    if x == xs[j - 1] {
      InterpAtKnot(xs, ys, j - 1);
    } else {
      SearchSortedLeftBetween(xs, j, x);
      assert Segment(xs, x) == j;
      LineBetween(xs[j - 1], ys[j - 1], xs[j], ys[j], x);
    }
  }

  /** The column indices that carry a value (`np.where(~np.isnan(b))[0]`) and the
      knots built from them. */
  function Valid(b: seq<Option<real>>): (v: seq<nat>)
    ensures forall j :: 0 <= j < |v| ==> v[j] < |b| && b[v[j]].Some?
    ensures forall t :: 0 <= t < |b| && b[t].Some? ==> t in v
    ensures forall j, j' :: 0 <= j < j' < |v| ==> v[j] < v[j']
  {
    Where(b, (o: Option<real>) => o.Some?, 0)
  }

  function KnotX(v: seq<nat>): (xs: seq<real>)
    ensures |xs| == |v|
  {
    seq(|v|, j requires 0 <= j < |v| => v[j] as real)
  }

  function KnotY(b: seq<Option<real>>, v: seq<nat>): (ys: seq<real>)
    requires forall j :: 0 <= j < |v| ==> v[j] < |b| && b[v[j]].Some?
    ensures |ys| == |v|
  {
    seq(|v|, j requires 0 <= j < |v| => b[v[j]].value)
  }

  lemma KnotXIncreasing(v: seq<nat>)
    requires forall j, j' :: 0 <= j < j' < |v| ==> v[j] < v[j']
    ensures StrictlyIncreasing(KnotX(v))
  {
  }

  /** The interpolant as it was evidently meant to behave with a single knot: the
      constant through it. With two or more knots it is `Interp1d`. */
  function Interp1dFixed(xs: seq<real>, ys: seq<real>, x: real): (r: Option<real>)
    requires |xs| == |ys| >= 1
  {
    if |xs| == 1 then Some(ys[0]) else Interp1d(xs, ys, x)
  }

  /** With a single knot scipy's linear branch picks the segment from index -1 to
      index 0, both the same knot, so every point is 0/0 = NaN. */
  lemma SingleKnotIsNaN(xs: seq<real>, ys: seq<real>, x: real)
    requires |xs| == |ys| == 1
    ensures Interp1d(xs, ys, x) == None
  {
    assert Segment(xs, x) == 0;
  }

  /** The corrected interpolant is defined everywhere and goes through every knot,
      whatever the number of knots. */
  lemma InterpFixedTotal(xs: seq<real>, ys: seq<real>, x: real, j: nat)
    requires |xs| == |ys| >= 1
    requires StrictlyIncreasing(xs)
    requires j < |xs|
    ensures Interp1dFixed(xs, ys, x).Some?
    ensures Interp1dFixed(xs, ys, xs[j]) == Some(ys[j])
  {
    if |xs| >= 2 {
      InterpDefined(xs, ys, x);
      InterpAtKnot(xs, ys, j);
    }
  }

  /** `interp1d(valid, b[valid], ...)(np.arange(len(b)))` for a boundary that shares
      its NaN positions with `key`: the upper boundary decides which columns are
      valid for both arrays. With `fixed` the single-knot case is the constant. */
  function Filled(key: seq<Option<real>>, b: seq<Option<real>>, fixed: bool): (f: seq<Option<real>>)
    requires |b| == |key|
    requires forall t :: 0 <= t < |b| ==> (b[t].Some? <==> key[t].Some?)
    requires |Valid(key)| > 0
    ensures |f| == |b|
  {
    var v := Valid(key);
    var xs, ys := KnotX(v), KnotY(b, v);
    seq(|b|, t requires 0 <= t < |b| =>
      if fixed then Interp1dFixed(xs, ys, t as real) else Interp1d(xs, ys, t as real))
  }

  /** Every column is filled, and a valid column keeps its own value, when there are
      two valid columns or the single-knot case is corrected. */
  lemma FilledKeepsValid(key: seq<Option<real>>, b: seq<Option<real>>, fixed: bool)
    requires |b| == |key|
    requires forall t :: 0 <= t < |b| ==> (b[t].Some? <==> key[t].Some?)
    requires |Valid(key)| >= 2 || (fixed && |Valid(key)| == 1)
    ensures forall t :: 0 <= t < |b| ==> Filled(key, b, fixed)[t].Some?
    ensures forall t :: 0 <= t < |b| && b[t].Some? ==> Filled(key, b, fixed)[t] == b[t]
  {
    forall t | 0 <= t < |b|
      ensures Filled(key, b, fixed)[t].Some?
      ensures b[t].Some? ==> Filled(key, b, fixed)[t] == b[t]
    {
      FilledAt(key, b, fixed, t);
    }
  }

  /** One column of `FilledKeepsValid`. */
  lemma FilledAt(key: seq<Option<real>>, b: seq<Option<real>>, fixed: bool, t: nat)
    requires |b| == |key|
    requires forall t :: 0 <= t < |b| ==> (b[t].Some? <==> key[t].Some?)
    requires |Valid(key)| >= 2 || (fixed && |Valid(key)| == 1)
    requires t < |b|
    ensures Filled(key, b, fixed)[t].Some?
    ensures b[t].Some? ==> Filled(key, b, fixed)[t] == b[t]
  {
    var v := Valid(key);
    var xs, ys := KnotX(v), KnotY(b, v);
    KnotXIncreasing(v);
    InterpFixedTotal(xs, ys, t as real, 0);
    if |v| >= 2 {
      InterpDefined(xs, ys, t as real);
    }
    if b[t].Some? {
      assert t in v;
      var j :| 0 <= j < |v| && v[j] == t;
      assert xs[j] == t as real;
      InterpFixedTotal(xs, ys, t as real, j);
      if |v| >= 2 {
        InterpAtKnot(xs, ys, j);
      }
    }
  }

  /** With exactly one valid column and no correction, every column is NaN. */
  lemma FilledSingleIsNaN(key: seq<Option<real>>, b: seq<Option<real>>)
    requires |b| == |key|
    requires forall t :: 0 <= t < |b| ==> (b[t].Some? <==> key[t].Some?)
    requires |Valid(key)| == 1
    ensures forall t :: 0 <= t < |b| ==> Filled(key, b, false)[t] == None
  {
    var v := Valid(key);
    forall t | 0 <= t < |b|
      ensures Filled(key, b, false)[t] == None
    {
      SingleKnotIsNaN(KnotX(v), KnotY(b, v), t as real);
    }
  }

  /** `[round(e) for e in b]`; `round` of a NaN raises ValueError. */
  function RoundAll(b: seq<Option<real>>): (r: Result<seq<int>, ExcClass>)
    ensures r.Ok? <==> forall t :: 0 <= t < |b| ==> b[t].Some?
    ensures r.Ok? ==> |r.value| == |b| &&
                      forall t :: 0 <= t < |b| ==> r.value[t] == RoundHalfEven(b[t].value)
    ensures r.Err? ==> r.error == ValueError
  {
    if |b| == 0 then Ok([])
    else if b[0].None? then Err(ValueError)
    else
      match RoundAll(b[1..])
      case Err(e) => Err(e)
      case Ok(rest) =>
        var r := [RoundHalfEven(b[0].value)] + rest;
        assert forall t :: 1 <= t < |b| ==> r[t] == RoundHalfEven(b[t].value) by {
          forall t | 1 <= t < |b|
            ensures r[t] == RoundHalfEven(b[t].value)
          {
            assert r[t] == rest[t - 1];
            assert b[1..][t - 1] == b[t];
          }
        }
        assert forall t :: 1 <= t < |b| ==> b[t].Some? by {
          forall t | 1 <= t < |b|
            ensures b[t].Some?
          {
            assert b[1..][t - 1] == b[t];
          }
        }
        Ok(r)
  }

  /** `extract_curves(bv_matrix, threshold)` with the interpolation chosen by
      `fixed`: the rounded upper and lower boundary and the threshold. */
  function ExtractWith(m: Matrix, times: nat, threshold: real, fixed: bool): (r: Result<(seq<int>, seq<int>, real), ExcClass>)
    requires Rectangular(m, times)
    ensures times == 0 ==> r == Ok(([], [], threshold))
    ensures r.Ok? ==> |r.value.0| == times && |r.value.1| == times && r.value.2 == threshold
    ensures r.Err? ==> r.error == ValueError
  {
    var up := RawBoundary(m, times, threshold, true);
    var low := RawBoundary(m, times, threshold, false);
    var (up', low') :=
      if |Valid(up)| > 0 then (Filled(up, up, fixed), Filled(up, low, fixed)) else (up, low);
    var ru :- RoundAll(up');
    var rl :- RoundAll(low');
    Ok((ru, rl, threshold))
  }

  /** `extract_curves` as written. */
  function ExtractCurves(m: Matrix, times: nat, threshold: real): (r: Result<(seq<int>, seq<int>, real), ExcClass>)
    requires Rectangular(m, times)
    ensures times == 0 ==> r == Ok(([], [], threshold))
    ensures r.Ok? ==> |r.value.0| == times && |r.value.1| == times && r.value.2 == threshold
    ensures r.Err? ==> r.error == ValueError
  {
    ExtractWith(m, times, threshold, false)
  }

  /** `extract_curves` with a single valid column filled by its own value. */
  function ExtractCurvesFixed(m: Matrix, times: nat, threshold: real): (r: Result<(seq<int>, seq<int>, real), ExcClass>)
    requires Rectangular(m, times)
    ensures times == 0 ==> r == Ok(([], [], threshold))
    ensures r.Ok? ==> |r.value.0| == times && |r.value.1| == times && r.value.2 == threshold
    ensures r.Err? ==> r.error == ValueError
  {
    ExtractWith(m, times, threshold, true)
  }

  /** If no entry of a non-empty matrix exceeds the threshold, the boundaries stay NaN
      and `round` raises ValueError; nothing returns `None`. */
  lemma NoExceedanceRaises(m: Matrix, times: nat, threshold: real)
    requires Rectangular(m, times) && times > 0
    requires forall i, t :: 0 <= i < |m| && 0 <= t < times ==> !Exceeds(m[i][t], threshold)
    ensures ExtractCurves(m, times, threshold) == Err(ValueError)
    ensures ExtractCurvesFixed(m, times, threshold) == Err(ValueError)
  {
    var up := RawBoundary(m, times, threshold, true);
    forall t | 0 <= t < times
      ensures up[t].None?
    {
    }
    WhereNone(up, (o: Option<real>) => o.Some?, 0);
  }

  /** When the filling leaves no NaN, both boundaries are returned, and at a valid
      column they are that column's first and last exceeding depth. */
  lemma ExtractWithKeepsValid(m: Matrix, times: nat, threshold: real, fixed: bool)
    requires Rectangular(m, times)
    requires var v := Valid(RawBoundary(m, times, threshold, true));
      |v| >= 2 || (fixed && |v| == 1)
    ensures ExtractWith(m, times, threshold, fixed).Ok?
    ensures forall t :: 0 <= t < times && ValidColumn(m, times, threshold, t) ==>
      var cb := ColumnBounds(Column(m, times, t), threshold).value;
      ExtractWith(m, times, threshold, fixed).value.0[t] == cb.0 &&
      ExtractWith(m, times, threshold, fixed).value.1[t] == cb.1
  {
    var up := RawBoundary(m, times, threshold, true);
    var low := RawBoundary(m, times, threshold, false);
    var fu, fl := Filled(up, up, fixed), Filled(up, low, fixed);
    FilledKeepsValid(up, up, fixed);
    FilledKeepsValid(up, low, fixed);
    var ru, rl := RoundAll(fu), RoundAll(fl);
    assert ru.Ok? && rl.Ok?;
    assert ExtractWith(m, times, threshold, fixed) == Ok((ru.value, rl.value, threshold));
    forall t | 0 <= t < times && ValidColumn(m, times, threshold, t)
      ensures ru.value[t] == ColumnBounds(Column(m, times, t), threshold).value.0
      ensures rl.value[t] == ColumnBounds(Column(m, times, t), threshold).value.1
    {
      var cb := ColumnBounds(Column(m, times, t), threshold).value;
      assert fu[t] == up[t] == Some(cb.0 as real);
      assert fl[t] == low[t] == Some(cb.1 as real);
      RoundHalfEvenUnique(cb.0 as real, cb.0);
      RoundHalfEvenUnique(cb.1 as real, cb.1);
    }
  }

  /** With at least two valid columns every boundary value is defined, and at a valid
      column the boundaries are that column's first and last exceeding depth. */
  lemma ValidColumnsKept(m: Matrix, times: nat, threshold: real, t1: nat, t2: nat)
    requires Rectangular(m, times)
    requires t1 < t2 < times
    requires ValidColumn(m, times, threshold, t1) && ValidColumn(m, times, threshold, t2)
    ensures ExtractCurves(m, times, threshold).Ok?
    ensures forall t :: 0 <= t < times && ValidColumn(m, times, threshold, t) ==>
      var cb := ColumnBounds(Column(m, times, t), threshold).value;
      ExtractCurves(m, times, threshold).value.0[t] == cb.0 &&
      ExtractCurves(m, times, threshold).value.1[t] == cb.1
  {
    var v := Valid(RawBoundary(m, times, threshold, true));
    assert t1 in v && t2 in v;
    var j1 :| 0 <= j1 < |v| && v[j1] == t1;
    var j2 :| 0 <= j2 < |v| && v[j2] == t2;
    assert j1 != j2;
    ExtractWithKeepsValid(m, times, threshold, false);
  }

  /** Exactly one valid column and at least one column: the extrapolation yields NaN
      everywhere and `round` raises ValueError. */
  lemma SingleValidColumnRaises(m: Matrix, times: nat, threshold: real, t0: nat)
    requires Rectangular(m, times)
    requires t0 < times
    requires forall t :: 0 <= t < times ==> (ValidColumn(m, times, threshold, t) <==> t == t0)
    ensures ExtractCurves(m, times, threshold) == Err(ValueError)
  {
    var up := RawBoundary(m, times, threshold, true);
    WhereSingle(up, (o: Option<real>) => o.Some?, 0, t0);
    FilledSingleIsNaN(up, up);
    assert Filled(up, up, false)[0] == None;
  }

  /** The corrected version succeeds as soon as one column is valid, and keeps every
      valid column's boundaries. */
  lemma FixedKeepsValid(m: Matrix, times: nat, threshold: real, t0: nat)
    requires Rectangular(m, times)
    requires t0 < times && ValidColumn(m, times, threshold, t0)
    ensures ExtractCurvesFixed(m, times, threshold).Ok?
    ensures forall t :: 0 <= t < times && ValidColumn(m, times, threshold, t) ==>
      var cb := ColumnBounds(Column(m, times, t), threshold).value;
      ExtractCurvesFixed(m, times, threshold).value.0[t] == cb.0 &&
      ExtractCurvesFixed(m, times, threshold).value.1[t] == cb.1
  {
    var v := Valid(RawBoundary(m, times, threshold, true));
    assert t0 in v;
    ExtractWithKeepsValid(m, times, threshold, true);
  }

  /** The profile of the function's own illustration: values 0.01, 0.01, 0.03, 0.03,
      0.01 down a column against the default threshold 0.024 give depths 2 and 3. */
  lemma ExampleColumn(col: seq<Option<real>>)
    requires col == [Some(0.01), Some(0.01), Some(0.03), Some(0.03), Some(0.01)]
    ensures ColumnBounds(col, 0.024) == Some((2, 3))
  {
    assert !Exceeds(col[0], 0.024) && !Exceeds(col[1], 0.024) && !Exceeds(col[4], 0.024);
    assert Exceeds(col[2], 0.024) && Exceeds(col[3], 0.024);
  }
}
