/** Low-pass filtering plumbing around a Butterworth design passed in as a parameter:
    `butfilt` (cutoff normalisation, then `butter(10, ...)` and `filtfilt`),
    `filter_data` (NaN zero-fill and restore around `butfilt`, cell by cell), and
    the helpers of `filter_lp` (sampling frequency, normalised cutoff, coefficient
    order). The filter design and the filtering are function parameters. */
module LowPass {
  import opened Wrappers
  import opened Grid

  /** `butter(10, filtc)` followed by `filtfilt`: a cutoff and a series in, a series
      out. */
  type ButterFilter = (real, seq<real>) -> seq<real>

  /** The only property assumed of the filter: it keeps the series length. */
  ghost predicate LengthPreserving(filt: ButterFilter) {
    forall c, x :: |filt(c, x)| == |x|
  }

  const ButterOrder: nat := 10

  /** `filtfilt`'s default pad length, 3 * max(len(a), len(b)), for the order-10
      design; a series not longer than this is rejected with ValueError. */
  const PadLen: nat := 3 * (ButterOrder + 1)

  /** The sampling interval `butfilt` is called with: hourly data. */
  const HourlySr: real := 3600.0

  /** The default cutoff period of `filter_data`, in hours. */
  const DefaultPeriodHours: real := 72.0

  /** The normalised cutoff of `butfilt(ff_filt, signal, sr)`: fs = 1/sr, nf = fs/2,
      filtf = 1/(ff_filt * 3600), filtc = filtf/nf. `butter` rejects a cutoff
      outside (0, 1) with ValueError. */
  function ButfiltCutoff(ff: real, sr: real): (r: Result<real, ExcClass>)
    ensures sr == 0.0 || ff == 0.0 ==> r == Err(ZeroDivisionError)
    ensures sr != 0.0 && ff != 0.0 ==>
      var c := 2.0 * sr / (3600.0 * ff);
      (r.Ok? <==> 0.0 < c < 1.0) &&
      (r.Ok? ==> r.value == c) &&
      (r.Err? ==> r.error == ValueError)
  {
    if sr == 0.0 then Err(ZeroDivisionError)
    else
      var fs := 1.0 / sr;
      var nf := 0.5 * fs;
      if ff * 60.0 * 60.0 == 0.0 then Err(ZeroDivisionError)
      else
        var filtf := 1.0 / (ff * 60.0 * 60.0);
        var filtc := filtf / nf;
        CutoffClosedForm(ff, sr);
        if 0.0 < filtc < 1.0 then Ok(filtc) else Err(ValueError)
  }

  lemma CutoffClosedForm(ff: real, sr: real)
    requires sr != 0.0 && ff != 0.0
    ensures (1.0 / (ff * 60.0 * 60.0)) / (0.5 * (1.0 / sr)) == 2.0 * sr / (3600.0 * ff)
  {
    var a := ff * 3600.0;
    assert ff * 60.0 * 60.0 == a;
    var nf := 0.5 * (1.0 / sr);
    assert nf * (2.0 * sr) == 1.0;
    assert (1.0 / a) / nf == (1.0 / a) * (2.0 * sr);
  }

  /** With hourly samples and the default 72-hour period the cutoff is 1/36. */
  lemma DefaultCutoff()
    ensures ButfiltCutoff(DefaultPeriodHours, HourlySr) == Ok(1.0 / 36.0)
  {
  }

  /** `sr` acts as seconds per sample: the cutoff grows with it. Were it samples per
      second, as documented, the cutoff would shrink as it grows. */
  lemma CutoffGrowsWithSr(ff: real, sr1: real, sr2: real)
    requires ff > 0.0 && 0.0 < sr1 < sr2
    requires ButfiltCutoff(ff, sr1).Ok? && ButfiltCutoff(ff, sr2).Ok?
    ensures ButfiltCutoff(ff, sr1).value < ButfiltCutoff(ff, sr2).value
  {
    var k := 3600.0 * ff;
    var c1, c2 := 2.0 * sr1 / k, 2.0 * sr2 / k;
    assert c1 * k == 2.0 * sr1 && c2 * k == 2.0 * sr2;
    assert (c2 - c1) * k == 2.0 * (sr2 - sr1) > 0.0;
  }

  /** `butfilt(ff_filt, x, sr)`. */
  function Butfilt(ff: real, x: seq<real>, sr: real, filt: ButterFilter): (r: Result<seq<real>, ExcClass>)
    requires LengthPreserving(filt)
    ensures r.Ok? <==> ButfiltCutoff(ff, sr).Ok? && |x| > PadLen
    ensures r.Ok? ==> r.value == filt(ButfiltCutoff(ff, sr).value, x)
    ensures r.Err? ==>
      (ButfiltCutoff(ff, sr).Err? && r.error == ButfiltCutoff(ff, sr).error) ||
      (ButfiltCutoff(ff, sr).Ok? && r.error == ValueError)
  {
    var c :- ButfiltCutoff(ff, sr);
    if |x| <= PadLen then Err(ValueError) else Ok(filt(c, x))
  }

  /** `serie[np.isnan(serie)] = 0` on a copy. */
  function ZeroFill(s: Series): (z: seq<real>)
    ensures |z| == |s|
    ensures forall k :: 0 <= k < |s| ==> z[k] == (if s[k].Some? then s[k].value else 0.0)
  {
    seq(|s|, k requires 0 <= k < |s| => s[k].GetOr(0.0))
  }

  /** `filtered[loc_nan] = np.nan`. */
  function Restore(s: Series, y: seq<real>): (r: Series)
    requires |y| == |s|
    ensures |r| == |s|
  {
    seq(|s|, k requires 0 <= k < |s| => if s[k].None? then None else Some(y[k]))
  }

  /** One cell of `filter_data`: zero-fill, filter with sr = 3600, restore the NaNs. */
  function FilterSeries(ff: real, s: Series, filt: ButterFilter): (r: Result<Series, ExcClass>)
    requires LengthPreserving(filt)
    ensures r.Ok? <==> ButfiltCutoff(ff, HourlySr).Ok? && |s| > PadLen
    ensures r.Ok? ==> |r.value| == |s|
  {
    var y :- Butfilt(ff, ZeroFill(s), HourlySr, filt);
    Ok(Restore(s, y))
  }

  /** A filtered cell keeps its length; it is NaN exactly where the input was, and
      everywhere else it holds the filter of the zero-filled series, cut off at
      2/ff of the Nyquist frequency. */
  lemma FilterSeriesMask(ff: real, s: Series, filt: ButterFilter)
    requires LengthPreserving(filt)
    requires FilterSeries(ff, s, filt).Ok?
    ensures var r := FilterSeries(ff, s, filt).value;
      var y := filt(2.0 / ff, ZeroFill(s));
      |r| == |s| &&
      (forall k :: 0 <= k < |s| ==> (r[k].None? <==> s[k].None?)) &&
      (forall k :: 0 <= k < |s| && s[k].Some? ==> r[k] == Some(y[k]))
  {
    assert ff != 0.0;
    assert 2.0 * HourlySr / (3600.0 * ff) == 2.0 / ff;
  }

  /** The loop body of `filter_data` at cell (dd, aa): `data_v[dd, aa, :]` is read
      before either series is filtered, so a `data_v` too small there raises
      IndexError first. */
  function CellStep(u: Field, nlat: nat, nt: nat, v: Field, vlat: nat, vt: nat, ff: real, filt: ButterFilter, dd: nat, aa: nat): (r: Result<(Series, Series), ExcClass>)
    requires Shaped(u, nlat, nt) && Shaped(v, vlat, vt) && LengthPreserving(filt)
    requires dd < |u| && aa < nlat
    ensures r.Ok? <==> dd < |v| && aa < vlat && ButfiltCutoff(ff, HourlySr).Ok? && nt > PadLen && vt > PadLen
    ensures r.Ok? ==> |r.value.0| == nt && |r.value.1| == vt
  {
    if dd >= |v| || aa >= vlat then Err(IndexError)
    else
      var fu :- FilterSeries(ff, u[dd][aa], filt);
      var fv :- FilterSeries(ff, v[dd][aa], filt);
      Ok((fu, fv))
  }

  /** The cells from (dd, aa) on, in the loops' row-major order: the first failing
      cell's error, if any. */
  function Scan(u: Field, nlat: nat, nt: nat, v: Field, vlat: nat, vt: nat, ff: real, filt: ButterFilter, dd: nat, aa: nat): (r: Result<(), ExcClass>)
    requires Shaped(u, nlat, nt) && Shaped(v, vlat, vt) && LengthPreserving(filt)
    requires dd <= |u| && aa <= nlat
    ensures r.Ok? <==> forall d, a :: dd <= d < |u| && 0 <= a < nlat && (d > dd || a >= aa) ==>
      CellStep(u, nlat, nt, v, vlat, vt, ff, filt, d, a).Ok?
    decreases |u| - dd, nlat - aa
  {
    if dd == |u| then Ok(())
    else if aa == nlat then Scan(u, nlat, nt, v, vlat, vt, ff, filt, dd + 1, 0)
    else
      match CellStep(u, nlat, nt, v, vlat, vt, ff, filt, dd, aa)
      case Err(e) => Err(e)
      case Ok(_) => Scan(u, nlat, nt, v, vlat, vt, ff, filt, dd, aa + 1)
  }

  /** `np.zeros_like(v)`. */
  function ZerosLike(v: Field, vlat: nat, vt: nat): (z: Field)
    requires Shaped(v, vlat, vt)
    ensures |z| == |v| && Shaped(z, vlat, vt)
  {
    seq(|v|, d requires 0 <= d < |v| => seq(vlat, a requires 0 <= a < vlat => seq(vt, k => Some(0.0))))
  }

  /** Row `d` of the filtered data_u, once every cell has passed. */
  function URow(u: Field, nlat: nat, nt: nat, v: Field, vlat: nat, vt: nat, ff: real, filt: ButterFilter, d: nat): (row: seq<Series>)
    requires Shaped(u, nlat, nt) && Shaped(v, vlat, vt) && LengthPreserving(filt)
    requires Scan(u, nlat, nt, v, vlat, vt, ff, filt, 0, 0).Ok? && d < |u|
    ensures |row| == nlat
    ensures forall a :: 0 <= a < nlat ==>
      CellStep(u, nlat, nt, v, vlat, vt, ff, filt, d, a).Ok? && row[a] == CellStep(u, nlat, nt, v, vlat, vt, ff, filt, d, a).value.0
      && |row[a]| == nt
  {
    seq(nlat, a requires 0 <= a < nlat => CellStep(u, nlat, nt, v, vlat, vt, ff, filt, d, a).value.0)
  }

  /** Row `d` of the filtered data_v: filtered inside data_u's first two dimensions,
      zeros outside them. */
  function VRow(u: Field, nlat: nat, nt: nat, v: Field, vlat: nat, vt: nat, ff: real, filt: ButterFilter, d: nat): (row: seq<Series>)
    requires Shaped(u, nlat, nt) && Shaped(v, vlat, vt) && LengthPreserving(filt)
    requires Scan(u, nlat, nt, v, vlat, vt, ff, filt, 0, 0).Ok? && d < |v|
    ensures |row| == vlat
    ensures forall a :: 0 <= a < vlat && d < |u| && a < nlat ==>
      CellStep(u, nlat, nt, v, vlat, vt, ff, filt, d, a).Ok? && row[a] == CellStep(u, nlat, nt, v, vlat, vt, ff, filt, d, a).value.1
    ensures forall a :: 0 <= a < vlat && (d >= |u| || a >= nlat) ==> row[a] == seq(vt, k => Some(0.0))
    ensures forall a :: 0 <= a < vlat ==> |row[a]| == vt
  {
    seq(vlat, a requires 0 <= a < vlat =>
      if d < |u| && a < nlat then CellStep(u, nlat, nt, v, vlat, vt, ff, filt, d, a).value.1
      else seq(vt, k => Some(0.0)))
  }

  /** `filter_data(data_u, data_v, filtering_freq)`: the loops run over data_u's first
      two dimensions only; cells of data_v outside them stay zero. */
  function FilterData(u: Field, nlat: nat, nt: nat, v: Field, vlat: nat, vt: nat, ff: real, filt: ButterFilter): (r: Result<(Field, Field), ExcClass>)
    requires Shaped(u, nlat, nt) && Shaped(v, vlat, vt) && LengthPreserving(filt)
    ensures r.Ok? ==>
      var (fu, fv) := r.value;
      |fu| == |u| && Shaped(fu, nlat, nt) && |fv| == |v| && Shaped(fv, vlat, vt)
  {
    match Scan(u, nlat, nt, v, vlat, vt, ff, filt, 0, 0)
    case Err(e) => Err(e)
    case Ok(_) =>
      var fu := seq(|u|, d requires 0 <= d < |u| => URow(u, nlat, nt, v, vlat, vt, ff, filt, d));
      var fv := seq(|v|, d requires 0 <= d < |v| => VRow(u, nlat, nt, v, vlat, vt, ff, filt, d));
      assert Shaped(fu, nlat, nt) by {
        forall d | 0 <= d < |fu|
          ensures |fu[d]| == nlat && forall a :: 0 <= a < nlat ==> |fu[d][a]| == nt
        {
        }
      }
      assert Shaped(fv, vlat, vt) by {
        forall d | 0 <= d < |fv|
          ensures |fv[d]| == vlat && forall a :: 0 <= a < vlat ==> |fv[d][a]| == vt
        {
        }
      }
      Ok((fu, fv))
  }

  /** When data_u has at least one cell, the call succeeds exactly when data_v
      covers data_u's first two dimensions, the cutoff is valid and both series are
      longer than the pad length. With no cell it returns two zero arrays. */
  lemma FilterDataSucceeds(u: Field, nlat: nat, nt: nat, v: Field, vlat: nat, vt: nat, ff: real, filt: ButterFilter)
    requires Shaped(u, nlat, nt) && Shaped(v, vlat, vt) && LengthPreserving(filt)
    ensures |u| > 0 && nlat > 0 ==>
      (FilterData(u, nlat, nt, v, vlat, vt, ff, filt).Ok? <==>
        |u| <= |v| && nlat <= vlat && ButfiltCutoff(ff, HourlySr).Ok? && nt > PadLen && vt > PadLen)
    ensures |u| == 0 || nlat == 0 ==>
      FilterData(u, nlat, nt, v, vlat, vt, ff, filt) == Ok((ZerosLike(u, nlat, nt), ZerosLike(v, vlat, vt)))
  {
    if |u| > 0 && nlat > 0 {
      if FilterData(u, nlat, nt, v, vlat, vt, ff, filt).Ok? {
        assert CellStep(u, nlat, nt, v, vlat, vt, ff, filt, |u| - 1, nlat - 1).Ok?;
      }
    } else {
      var r := FilterData(u, nlat, nt, v, vlat, vt, ff, filt);
      assert r.Ok?;
      if nlat == 0 {
        assert r.value.0 == ZerosLike(u, nlat, nt);
      } else {
        assert r.value.0 == [];
      }
      assert r.value.1 == ZerosLike(v, vlat, vt) by {
        forall d | 0 <= d < |v|
          ensures r.value.1[d] == ZerosLike(v, vlat, vt)[d]
        {
        }
      }
    }
  }

  /** Each output cell inside data_u's first two dimensions is the filtered series of
      the same input cell alone (NaNs kept in place); data_v's cells outside them are
      zeros. */
  lemma FilterDataCells(u: Field, nlat: nat, nt: nat, v: Field, vlat: nat, vt: nat, ff: real, filt: ButterFilter)
    requires Shaped(u, nlat, nt) && Shaped(v, vlat, vt) && LengthPreserving(filt)
    requires FilterData(u, nlat, nt, v, vlat, vt, ff, filt).Ok?
    ensures var (fu, fv) := FilterData(u, nlat, nt, v, vlat, vt, ff, filt).value;
      (forall d, a :: 0 <= d < |u| && 0 <= a < nlat ==>
        FilterSeries(ff, u[d][a], filt).Ok? && fu[d][a] == FilterSeries(ff, u[d][a], filt).value &&
        FilterSeries(ff, v[d][a], filt).Ok? && fv[d][a] == FilterSeries(ff, v[d][a], filt).value) &&
      (forall d, a, k :: 0 <= d < |v| && 0 <= a < vlat && 0 <= k < vt && (d >= |u| || a >= nlat) ==>
        fv[d][a][k] == Some(0.0))
  {
    var (fu, fv) := FilterData(u, nlat, nt, v, vlat, vt, ff, filt).value;
    forall d, a | 0 <= d < |u| && 0 <= a < nlat
      ensures CellStep(u, nlat, nt, v, vlat, vt, ff, filt, d, a).Ok?
      ensures fu[d][a] == CellStep(u, nlat, nt, v, vlat, vt, ff, filt, d, a).value.0
      ensures fv[d][a] == CellStep(u, nlat, nt, v, vlat, vt, ff, filt, d, a).value.1
    {
    }
    forall d, a, k | 0 <= d < |v| && 0 <= a < vlat && 0 <= k < vt && (d >= |u| || a >= nlat)
      ensures fv[d][a][k] == Some(0.0)
    {
    }
  }

  // ---------------------------------------------------------------------------
  // The helpers of `filter_lp`.

  /** `get_sampling_freq_total_time(signal, time_days)`: (samples per second, total
      seconds). */
  function SamplingFreqTotalTime(n: nat, days: real): (r: Result<(real, real), ExcClass>)
    ensures days == 0.0 <==> r == Err(ZeroDivisionError)
    ensures r.Ok? ==> r.value.1 == 86400.0 * days && r.value.0 * r.value.1 == n as real
  {
    var total := days * 24.0 * 3600.0;
    if total == 0.0 then Err(ZeroDivisionError) else Ok(((n as real) / total, total))
  }

  /** `get_cutoff_freq_norm(cutoff_freq_h, total_time_seconds)`. */
  function CutoffFreqNorm(h: real, total: real): (r: Result<real, ExcClass>)
    ensures total == 0.0 <==> r == Err(ZeroDivisionError)
    ensures r.Ok? ==> r.value * 2.0 * total == h * 3600.0
  {
    if 2.0 * total == 0.0 then Err(ZeroDivisionError) else Ok(h * 3600.0 / (2.0 * total))
  }

  /** Chained as in the script, the normalised cutoff is h / (48 * days): the number of
      samples plays no part, and it is below 1 exactly when h < 48 * days. */
  lemma CutoffFromDays(n: nat, days: real, h: real)
    requires days != 0.0
    ensures var total := SamplingFreqTotalTime(n, days).value.1;
      CutoffFreqNorm(h, total) == Ok(h / (48.0 * days))
    ensures days > 0.0 ==>
      var total := SamplingFreqTotalTime(n, days).value.1;
      (CutoffFreqNorm(h, total).value < 1.0 <==> h < 48.0 * days)
  {
    var total := 86400.0 * days;
    assert h * 3600.0 / (2.0 * total) == h / (48.0 * days);
    if days > 0.0 {
      var c := h / (48.0 * days);
      assert c * (48.0 * days) == h;
    }
  }

  /** The script's call: a 72-hour cutoff over 14 days is 3/28. */
  lemma ScriptCutoff(n: nat)
    ensures CutoffFreqNorm(72.0, SamplingFreqTotalTime(n, 14.0).value.1) == Ok(3.0 / 28.0)
  {
    CutoffFromDays(n, 14.0, 72.0);
  }

  /** `signal.butter(order, wn)`: numerator b, then denominator a. */
  type Design = (nat, real) -> (seq<real>, seq<real>)

  /** `filtfilt(b, a, x)`. */
  type FiltFilt = (seq<real>, seq<real>, seq<real>) -> seq<real>

  /** `get_lp_butter_lp_filter_param(order, wn)` returns the pair as (a, b). */
  function LpButterParams(order: nat, wn: real, design: Design): (r: (seq<real>, seq<real>))
    ensures r.0 == design(order, wn).1 && r.1 == design(order, wn).0
  {
    var (b, a) := design(order, wn);
    (a, b)
  }

  /** `lp_filter(a, b, x)` calls `filtfilt(b, a, x)`. */
  function LpFilter(a: seq<real>, b: seq<real>, x: seq<real>, filtfilt: FiltFilt): seq<real> {
    filtfilt(b, a, x)
  }

  /** The two swaps cancel: the script's chain hands `filtfilt` the numerator first,
      exactly as `butter` produced it. */
  lemma SwapCancels(order: nat, wn: real, x: seq<real>, design: Design, filtfilt: FiltFilt)
    ensures var (a, b) := LpButterParams(order, wn, design);
      LpFilter(a, b, x, filtfilt) == filtfilt(design(order, wn).0, design(order, wn).1, x)
  {
  }
}
