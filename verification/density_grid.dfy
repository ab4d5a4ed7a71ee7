/** `generate_potential_density_grid` of the TS-diagram scripts: the salinity and
    temperature axes around the data and the potential-density table over them.
    The equation of state (`gsw.rho`) and the temperature conversion
    (`gsw.CT_from_pt`) are parameters. */
module DensityGrid {
  import opened Wrappers
  import opened NanStats
  import opened PyNum

  /** The salinity range: one percent below the smallest and above the largest
      sample. */
  function SalinityRange(lo: real, hi: real): (r: (real, real))
    ensures r.0 == 0.99 * lo && r.1 == 1.01 * hi
  {
    (lo - 0.01 * lo, hi + 0.01 * hi)
  }

  /** The temperature range: the margin on BOTH ends is a tenth of the largest
      sample. */
  function TemperatureRange(lo: real, hi: real): (r: (real, real))
    ensures r.1 - r.0 == (hi - lo) + 0.2 * hi
    ensures r.0 + 0.1 * hi == lo && r.1 - 0.1 * hi == hi
  {
    (lo - 0.1 * hi, hi + 0.1 * hi)
  }

  /** `np.arange(n) * step + start`. */
  function Axis(start: real, step: real, n: nat): (r: seq<real>)
    ensures |r| == n
    ensures n > 0 ==> r[0] == start
    ensures forall i :: 0 < i < n ==> r[i] - r[i - 1] == step
  {
    seq(n, i requires 0 <= i < n => start + step * (i as real))
  }

  /** The three arrays returned. */
  datatype Grid = Grid(si: seq<real>, thetai: seq<real>, pdens: seq<seq<real>>)

  /** Salinity steps are 0.1 and temperature steps 1; the sizes are `np.round`
      (half to even) of the range over the step, plus one. */
  function XDim(smin: real, smax: real): int {
    RoundHalfEven((smax - smin) / 0.1 + 1.0)
  }

  function YDim(tmin: real, tmax: real): int {
    RoundHalfEven((tmax - tmin) + 1.0)
  }

  /** `pdens[j, i] = rho(si[i], CT_from_pt(si[i], thetai[j]), 0) - 1000`. */
  function DensityTable(si: seq<real>, thetai: seq<real>, rho: (real, real, real) -> real,
                        ctFromPt: (real, real) -> real): (t: seq<seq<real>>)
    ensures |t| == |thetai|
    ensures forall j :: 0 <= j < |t| ==> |t[j]| == |si|
    ensures forall j, i :: 0 <= j < |t| && 0 <= i < |si| ==>
      t[j][i] + 1000.0 == rho(si[i], ctFromPt(si[i], thetai[j]), 0.0)
  {
    seq(|thetai|, j requires 0 <= j < |thetai| =>
      seq(|si|, i requires 0 <= i < |si| => rho(si[i], ctFromPt(si[i], thetai[j]), 0.0) - 1000.0))
  }

  /** The whole function. No salinity or no temperature sample (an empty or an
      all-NaN array) ends in ValueError: `np.nanmin` raises on an empty array, and
      `int(np.round(nan))` on an all-NaN one. A negative size makes `np.zeros`
      raise ValueError too. */
  function PotentialDensityGrid(absSal: seq<Option<real>>, consTemp: seq<Option<real>>,
                                rho: (real, real, real) -> real, ctFromPt: (real, real) -> real):
    (r: Result<Grid, ExcClass>)
    ensures r.Err? ==> r.error == ValueError
    ensures r.Err? <==> (NanMin(absSal).None? || NanMin(consTemp).None?
      || XDim(SalinityRange(NanMin(absSal).value, NanMax(absSal).value).0,
              SalinityRange(NanMin(absSal).value, NanMax(absSal).value).1) < 0
      || YDim(TemperatureRange(NanMin(consTemp).value, NanMax(consTemp).value).0,
              TemperatureRange(NanMin(consTemp).value, NanMax(consTemp).value).1) < 0)
    ensures r.Ok? ==>
      var (smin, smax) := SalinityRange(NanMin(absSal).value, NanMax(absSal).value);
      var (tmin, tmax) := TemperatureRange(NanMin(consTemp).value, NanMax(consTemp).value);
      r.value.si == Axis(smin, 0.1, XDim(smin, smax))
      && r.value.thetai == Axis(tmin, 1.0, YDim(tmin, tmax))
      && r.value.pdens == DensityTable(r.value.si, r.value.thetai, rho, ctFromPt)
  {
    var sLo, sHi, tLo, tHi := NanMin(absSal), NanMax(absSal), NanMin(consTemp), NanMax(consTemp);
    if sLo.None? || tLo.None? then Err(ValueError)
    else
      var (smin, smax) := SalinityRange(sLo.value, sHi.value);
      var (tmin, tmax) := TemperatureRange(tLo.value, tHi.value);
      var xdim, ydim := XDim(smin, smax), YDim(tmin, tmax);
      if xdim < 0 || ydim < 0 then Err(ValueError)
      else
        var si, thetai := Axis(smin, 0.1, xdim), Axis(tmin, 1.0, ydim);
        Ok(Grid(si, thetai, DensityTable(si, thetai, rho, ctFromPt)))
  }

  /** On success, cell `[j, i]` of the table is the density anomaly at salinity
      `smin + 0.1 i` and temperature `tmin + j`, for every `i < xdim` and `j < ydim`,
      with `smin` and `tmin` the lower ends of the two ranges around the samples. */
  lemma GridCells(absSal: seq<Option<real>>, consTemp: seq<Option<real>>,
                  rho: (real, real, real) -> real, ctFromPt: (real, real) -> real, j: nat, i: nat)
    requires PotentialDensityGrid(absSal, consTemp, rho, ctFromPt).Ok?
    ensures var g := PotentialDensityGrid(absSal, consTemp, rho, ctFromPt).value;
      var smin := SalinityRange(NanMin(absSal).value, NanMax(absSal).value).0;
      var tmin := TemperatureRange(NanMin(consTemp).value, NanMax(consTemp).value).0;
      |g.pdens| == |g.thetai| && (forall y :: 0 <= y < |g.pdens| ==> |g.pdens[y]| == |g.si|)
      && (j < |g.thetai| && i < |g.si| ==>
        g.si[i] == smin + 0.1 * (i as real) && g.thetai[j] == tmin + (j as real)
        && g.pdens[j][i] + 1000.0 == rho(g.si[i], ctFromPt(g.si[i], g.thetai[j]), 0.0))
  {
    var g := PotentialDensityGrid(absSal, consTemp, rho, ctFromPt).value;
    var (smin, smax) := SalinityRange(NanMin(absSal).value, NanMax(absSal).value);
    var (tmin, tmax) := TemperatureRange(NanMin(consTemp).value, NanMax(consTemp).value);
    assert g.si == Axis(smin, 0.1, XDim(smin, smax));
    assert g.thetai == Axis(tmin, 1.0, YDim(tmin, tmax));
    assert g.pdens == DensityTable(g.si, g.thetai, rho, ctFromPt);
  }

  /** For positive salinities the axis starts below the smallest sample, and its
      last point is within half a step (0.05) of the top of the range, which lies
      above the largest sample. */
  lemma SalinityAxisCovers(lo: real, hi: real)
    requires 0.0 < lo <= hi
    ensures var (smin, smax) := SalinityRange(lo, hi);
      var n := XDim(smin, smax);
      smin < lo && hi < smax && n >= 1
      && smax - 0.05 <= smin + 0.1 * ((n - 1) as real) <= smax + 0.05
  {
    var (smin, smax) := SalinityRange(lo, hi);
    var x := (smax - smin) / 0.1 + 1.0;
    var n := XDim(smin, smax);
    assert (n as real) - 0.5 <= x <= (n as real) + 0.5;
    assert 0.1 * x == smax - smin + 0.1;
  }

  /** With a positive warmest sample the temperature axis starts below the coldest
      sample and ends within half a degree of the top of the range, which lies above
      the warmest sample. */
  lemma TemperatureAxisCovers(lo: real, hi: real)
    requires lo <= hi && 0.0 < hi
    ensures var (tmin, tmax) := TemperatureRange(lo, hi);
      var n := YDim(tmin, tmax);
      tmin < lo && hi < tmax && n >= 1
      && tmax - 0.5 <= tmin + ((n - 1) as real) <= tmax + 0.5
  {
    var (tmin, tmax) := TemperatureRange(lo, hi);
    var n := YDim(tmin, tmax);
    assert (n as real) - 0.5 <= (tmax - tmin) + 1.0 <= (n as real) + 0.5;
  }

  /** NaN samples do not move the grid: adding a NaN anywhere gives the same result. */
  lemma NanSamplesIgnored(absSal: seq<Option<real>>, k: nat, consTemp: seq<Option<real>>,
                          rho: (real, real, real) -> real, ctFromPt: (real, real) -> real)
    requires k <= |absSal|
    ensures PotentialDensityGrid(absSal[..k] + [None] + absSal[k..], consTemp, rho, ctFromPt)
         == PotentialDensityGrid(absSal, consTemp, rho, ctFromPt)
  {
    NanExtremaIgnoreNone(absSal, k);
  }

  lemma NanExtremaIgnoreNone(s: seq<Option<real>>, k: nat)
    requires k <= |s|
    ensures NanMin(s[..k] + [None] + s[k..]) == NanMin(s)
    ensures NanMax(s[..k] + [None] + s[k..]) == NanMax(s)
  {
    var s' := s[..k] + [None] + s[k..];
    assert s == s[..k] + s[k..];
    forall x: real
      ensures Some(x) in s' <==> Some(x) in s
    {
    }
    SameSamplesSameMin(s', s);
    SameSamplesSameMin(s, s');
    SameSamplesSameMax(s', s);
    SameSamplesSameMax(s, s');
  }

  /** The NaN-aware extremes depend only on which values are present. */
  lemma SameSamplesSameMin(a: seq<Option<real>>, b: seq<Option<real>>)
    requires forall x: real :: Some(x) in a <==> Some(x) in b
    ensures NanMin(a).Some? ==> NanMin(b) == NanMin(a)
  {
    var ma := NanMin(a);
    if ma.Some? {
      assert Some(ma.value) in b;
      var j :| 0 <= j < |b| && b[j] == Some(ma.value);
      var mb := NanMin(b);
      assert mb.Some?;
      assert Some(mb.value) in a;
      var i :| 0 <= i < |a| && a[i] == Some(mb.value);
      assert ma.value <= mb.value;
      assert mb.value <= ma.value;
    }
  }

  lemma SameSamplesSameMax(a: seq<Option<real>>, b: seq<Option<real>>)
    requires forall x: real :: Some(x) in a <==> Some(x) in b
    ensures NanMax(a).Some? ==> NanMax(b) == NanMax(a)
  {
    var ma := NanMax(a);
    if ma.Some? {
      assert Some(ma.value) in b;
      var j :| 0 <= j < |b| && b[j] == Some(ma.value);
      var mb := NanMax(b);
      assert mb.Some?;
      assert Some(mb.value) in a;
      var i :| 0 <= i < |a| && a[i] == Some(mb.value);
      assert ma.value >= mb.value;
      assert mb.value >= ma.value;
    }
  }
}
