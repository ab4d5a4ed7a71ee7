/** `remap_acoustic_data`, in its two versions: acoustic backscatter samples
    (time, depth, Sv) are bucketed onto the grid of their distinct times and depths,
    stored in linear units 10^(Sv/10), interpolated at every (target time, -target
    depth) point, and converted back to dB, with exact zeros becoming NaN.

    The newer version (under src/) validates its arguments first, builds the matrix
    with `csr_matrix` (duplicate coordinates are summed), and turns every later error
    into a bare `Exception`. The older version only checks for an empty frame,
    assigns into a dense zero matrix (the last duplicate wins), and hands the
    interpolator the transposed matrix.

    The interpolator, `matlab2python` and the two transcendental conversions are
    parameters: `Build` plays `RegularGridInterpolator(...)` (construction may raise;
    the built object maps a point to a value or NaN). */
module AcousticRemap {
  import opened Wrappers
  import opened Ordering

  // ---------------------------------------------------------------------------
  // Arguments
  // ---------------------------------------------------------------------------

  /** A DataFrame: named float columns, each `nrows` long. */
  datatype Frame = Frame(columns: seq<(string, seq<real>)>, nrows: nat)

  /** The first argument of the newer version, which may not be a DataFrame at all. */
  datatype FrameArg = IsFrame(frame: Frame) | NonFrame

  /** A `target_time` / `target_depth` argument: a numpy array (its values are read
      only when it is one-dimensional) or some other object. */
  datatype ArrayArg = NdArray(ndim: nat, values: seq<real>) | NonArray

  /** A column-name or method argument: a `str` or some other object. */
  datatype Arg = Str(s: string) | NonStr

  ghost predicate WellFormed(f: Frame) {
    forall c :: c in f.columns ==> |c.1| == f.nrows
  }

  /** `DataFrame.empty`: true when either axis has length 0. */
  predicate Empty(f: Frame) {
    f.nrows == 0 || |f.columns| == 0
  }

  function Names(f: Frame): (r: seq<string>)
    ensures |r| == |f.columns|
    ensures forall i :: 0 <= i < |r| ==> r[i] == f.columns[i].0
  {
    seq(|f.columns|, i requires 0 <= i < |f.columns| => f.columns[i].0)
  }

  /** `df[name].values` for a present, non-duplicated column name: the first column
      so named. */
  function Lookup(cols: seq<(string, seq<real>)>, name: string): (v: seq<real>)
    requires exists i :: 0 <= i < |cols| && cols[i].0 == name
    ensures exists i :: 0 <= i < |cols| && cols[i].0 == name && v == cols[i].1
  {
    if cols[0].0 == name then cols[0].1
    else
      assert exists i :: 0 <= i < |cols[1..]| && cols[1..][i].0 == name by {
        var i :| 0 <= i < |cols| && cols[i].0 == name;
        assert cols[1..][i - 1].0 == name;
      }
      Lookup(cols[1..], name)
  }

  function Column(f: Frame, name: string): (v: seq<real>)
    requires name in Names(f)
    requires WellFormed(f)
    ensures |v| == f.nrows
  {
    var i :| 0 <= i < |Names(f)| && Names(f)[i] == name;
    var v := Lookup(f.columns, name);
    var i' :| 0 <= i' < |f.columns| && f.columns[i'].0 == name && v == f.columns[i'].1;
    assert f.columns[i'] in f.columns;
    v
  }

  // ---------------------------------------------------------------------------
  // Validation (newer version)
  // ---------------------------------------------------------------------------

  predicate HasColumn(f: FrameArg, a: Arg) {
    f.IsFrame? && a.Str? && a.s in Names(f.frame)
  }

  predicate KnownMethod(m: string) {
    m == "linear" || m == "nearest"
  }

  /** The argument checks of the newer version, in source order: the first failing
      check's exception, or `None` when the arguments are accepted. */
  function Validate(f: FrameArg, tt: ArrayArg, td: ArrayArg, tc: Arg, dc: Arg, sc: Arg, meth: Arg): (r: Option<ExcClass>)
    ensures r.None? <==>
      f.IsFrame? && !Empty(f.frame) && tt.NdArray? && td.NdArray? && tt.ndim == 1 && td.ndim == 1
      && tc.Str? && dc.Str? && sc.Str? && meth.Str? && KnownMethod(meth.s)
      && HasColumn(f, tc) && HasColumn(f, dc) && HasColumn(f, sc)
  {
    if f.NonFrame? then Some(TypeError)
    else if Empty(f.frame) then Some(ValueError)
    else if tt.NonArray? then Some(TypeError)
    else if td.NonArray? then Some(TypeError)
    else if tt.ndim != 1 then Some(ValueError)
    else if td.ndim != 1 then Some(ValueError)
    else if tc.NonStr? || dc.NonStr? || sc.NonStr? || meth.NonStr? then Some(TypeError)
    else if !KnownMethod(meth.s) then Some(ValueError)
    else if !HasColumn(f, tc) || !HasColumn(f, dc) || !HasColumn(f, sc) then Some(KeyError)
    else None
  }

  /** Anything but a DataFrame is a TypeError, whatever the other arguments. */
  lemma NotAFrameRaises(tt: ArrayArg, td: ArrayArg, tc: Arg, dc: Arg, sc: Arg, meth: Arg)
    ensures Validate(NonFrame, tt, td, tc, dc, sc, meth) == Some(TypeError)
  {
  }

  /** An empty DataFrame is a ValueError, before any other argument is looked at. */
  lemma EmptyFrameRaises(f: Frame, tt: ArrayArg, td: ArrayArg, tc: Arg, dc: Arg, sc: Arg, meth: Arg)
    requires Empty(f)
    ensures Validate(IsFrame(f), tt, td, tc, dc, sc, meth) == Some(ValueError)
  {
  }

  /** A non-array target is a TypeError, and a multi-dimensional one a ValueError,
      once the frame has passed; the time argument is examined before the depth one
      for each kind of check, and both type checks come before both shape checks. */
  lemma TargetArgumentsChecked(f: Frame, tt: ArrayArg, td: ArrayArg, tc: Arg, dc: Arg, sc: Arg, meth: Arg)
    requires !Empty(f)
    ensures (tt.NonArray? || td.NonArray?) ==> Validate(IsFrame(f), tt, td, tc, dc, sc, meth) == Some(TypeError)
    ensures tt.NdArray? && td.NdArray? && (tt.ndim != 1 || td.ndim != 1) ==>
      Validate(IsFrame(f), tt, td, tc, dc, sc, meth) == Some(ValueError)
  {
  }

  /** With a valid frame and targets, an unsupported method string is a ValueError;
      any non-string name or method is a TypeError. */
  lemma MethodChecked(f: Frame, tt: seq<real>, td: seq<real>, tc: Arg, dc: Arg, sc: Arg, meth: Arg)
    requires !Empty(f)
    ensures (tc.NonStr? || dc.NonStr? || sc.NonStr? || meth.NonStr?) ==>
      Validate(IsFrame(f), NdArray(1, tt), NdArray(1, td), tc, dc, sc, meth) == Some(TypeError)
    ensures tc.Str? && dc.Str? && sc.Str? && meth.Str? && !KnownMethod(meth.s) ==>
      Validate(IsFrame(f), NdArray(1, tt), NdArray(1, td), tc, dc, sc, meth) == Some(ValueError)
  {
  }

  /** Once everything else passes, a column name the frame lacks is a KeyError. */
  lemma MissingColumnRaises(f: Frame, tt: seq<real>, td: seq<real>, tc: string, dc: string, sc: string, meth: string)
    requires !Empty(f)
    requires KnownMethod(meth)
    requires !(tc in Names(f) && dc in Names(f) && sc in Names(f))
    ensures Validate(IsFrame(f), NdArray(1, tt), NdArray(1, td), Str(tc), Str(dc), Str(sc), Str(meth)) == Some(KeyError)
  {
  }

  // ---------------------------------------------------------------------------
  // Bucketing
  // ---------------------------------------------------------------------------

  /** `np.searchsorted(unique, x) - 1`. */
  function Bucket(u: seq<real>, x: real): (b: int)
    ensures -1 <= b < |u|
  {
    SearchSortedLeft(u, x) as int - 1
  }

  /** A coordinate's bucket is one below its own slot in the sorted distinct values. */
  lemma BucketOfMember(u: seq<real>, i: nat)
    requires StrictlyIncreasing(u)
    requires i < |u|
    ensures Bucket(u, u[i]) == i - 1
  {
    SearchSortedLeftFindsMember(u, i);
  }

  /** The validity test of the source: both buckets within `[0, len)`. */
  predicate Kept(tu: seq<real>, du: seq<real>, t: real, d: real) {
    var bt, bd := Bucket(tu, t), Bucket(du, d);
    0 <= bt < |tu| && 0 <= bd < |du|
  }

  /** For a sample coordinate, the bucket is valid exactly when some other sample has
      a strictly smaller coordinate: samples at the minimum are dropped, and the
      upper-bound half of the test never fails. */
  lemma BucketValidIff(s: seq<real>, k: nat)
    requires k < |s|
    ensures var b := Bucket(SortedUnique(s), s[k]);
      b < |SortedUnique(s)| && (0 <= b <==> exists a :: 0 <= a < |s| && s[a] < s[k])
  {
    var u := SortedUnique(s);
    var x := s[k];
    assert x in u;
    var n := SearchSortedLeft(u, x);
    if n == 0 {
      forall a | 0 <= a < |s|
        ensures !(s[a] < x)
      {
        var y := s[a];
        assert y in u;
        var i :| 0 <= i < |u| && u[i] == y;
        assert u[0] <= u[i];
      }
    } else {
      var y := u[0];
      assert y in s;
      var a :| 0 <= a < |s| && s[a] == y;
      assert s[a] < x;
    }
  }

  /** One matrix entry: the sample it came from, its bucket, and its linear value. */
  datatype Entry = Entry(sample: nat, row: nat, col: nat, value: real)

  /** `e` is the entry sample `e.sample` produces: the sample is kept, `e` sits at its
      buckets, and holds `10 ** (Sv / 10)`. */
  predicate Describes(e: Entry, times: seq<real>, depths: seq<real>, sv: seq<real>, tu: seq<real>, du: seq<real>,
                      pow10: real -> real)
  {
    e.sample < |times| == |depths| == |sv|
    && Kept(tu, du, times[e.sample], depths[e.sample])
    && e.row as int == Bucket(tu, times[e.sample]) && e.col as int == Bucket(du, depths[e.sample])
    && e.row < |tu| && e.col < |du| && e.value == pow10(sv[e.sample] / 10.0)
  }

  /** The kept samples from position `k` on, in sample order, as matrix entries. */
  function Entries(times: seq<real>, depths: seq<real>, sv: seq<real>, tu: seq<real>, du: seq<real>,
                   pow10: real -> real, k: nat): (es: seq<Entry>)
    requires |times| == |depths| == |sv|
    requires k <= |times|
    ensures |es| <= |times| - k
    decreases |times| - k
  {
    if k == |times| then []
    else if Kept(tu, du, times[k], depths[k]) then
      [Entry(k, Bucket(tu, times[k]), Bucket(du, depths[k]), pow10(sv[k] / 10.0))]
        + Entries(times, depths, sv, tu, du, pow10, k + 1)
    else Entries(times, depths, sv, tu, du, pow10, k + 1)
  }

  /** Every entry of `es` describes its own sample, from `k` on, in sample order. */
  predicate Sound(es: seq<Entry>, times: seq<real>, depths: seq<real>, sv: seq<real>, tu: seq<real>, du: seq<real>,
                  pow10: real -> real, k: nat)
  {
    (forall n :: 0 <= n < |es| ==> k <= es[n].sample && Describes(es[n], times, depths, sv, tu, du, pow10))
    && (forall n, n' :: 0 <= n < n' < |es| ==> es[n].sample < es[n'].sample)
  }

  /** Every entry describes its own sample, and entries follow sample order. */
  lemma {:induction false} EntriesSound(times: seq<real>, depths: seq<real>, sv: seq<real>, tu: seq<real>, du: seq<real>,
                                        pow10: real -> real, k: nat)
    requires |times| == |depths| == |sv|
    requires k <= |times|
    ensures Sound(Entries(times, depths, sv, tu, du, pow10, k), times, depths, sv, tu, du, pow10, k)
    decreases |times| - k
  {
    if k < |times| {
      EntriesSound(times, depths, sv, tu, du, pow10, k + 1);
      var rest := Entries(times, depths, sv, tu, du, pow10, k + 1);
      if Kept(tu, du, times[k], depths[k]) {
        var e := Entry(k, Bucket(tu, times[k]), Bucket(du, depths[k]), pow10(sv[k] / 10.0));
        assert Entries(times, depths, sv, tu, du, pow10, k) == [e] + rest;
        ConsSound(e, rest, times, depths, sv, tu, du, pow10, k);
      }
    }
  }

  /** Putting the entry of sample `k` in front of sound entries from `k + 1` on gives
      sound entries from `k` on. */
  lemma ConsSound(e: Entry, rest: seq<Entry>, times: seq<real>, depths: seq<real>, sv: seq<real>,
                  tu: seq<real>, du: seq<real>, pow10: real -> real, k: nat)
    requires e.sample == k && Describes(e, times, depths, sv, tu, du, pow10)
    requires Sound(rest, times, depths, sv, tu, du, pow10, k + 1)
    ensures Sound([e] + rest, times, depths, sv, tu, du, pow10, k)
  {
    var es := [e] + rest;
    forall n | 0 <= n < |es|
      ensures k <= es[n].sample && Describes(es[n], times, depths, sv, tu, du, pow10)
    {
      if n > 0 {
        assert es[n] == rest[n - 1];
      }
    }
    forall n, n' | 0 <= n < n' < |es|
      ensures es[n].sample < es[n'].sample
    {
      assert es[n'] == rest[n' - 1];
      if n > 0 {
        assert es[n] == rest[n - 1];
      }
    }
  }

  predicate HasEntry(es: seq<Entry>, s: nat) {
    exists n :: 0 <= n < |es| && es[n].sample == s
  }

  /** Every kept sample from `k` on has an entry. */
  lemma {:induction false} EntriesComplete(times: seq<real>, depths: seq<real>, sv: seq<real>, tu: seq<real>, du: seq<real>,
                                           pow10: real -> real, k: nat, s: nat)
    requires |times| == |depths| == |sv|
    requires k <= s < |times|
    requires Kept(tu, du, times[s], depths[s])
    ensures HasEntry(Entries(times, depths, sv, tu, du, pow10, k), s)
    decreases |times| - k
  {
    var es := Entries(times, depths, sv, tu, du, pow10, k);
    if s == k {
      var e := Entry(k, Bucket(tu, times[k]), Bucket(du, depths[k]), pow10(sv[k] / 10.0));
      assert es == [e] + Entries(times, depths, sv, tu, du, pow10, k + 1);
      assert es[0].sample == s;
    } else {
      EntriesComplete(times, depths, sv, tu, du, pow10, k + 1, s);
      var rest := Entries(times, depths, sv, tu, du, pow10, k + 1);
      var m :| 0 <= m < |rest| && rest[m].sample == s;
      if Kept(tu, du, times[k], depths[k]) {
        assert es[m + 1] == rest[m];
      } else {
        assert es[m] == rest[m];
      }
    }
  }

  // ---------------------------------------------------------------------------
  // The value matrix
  // ---------------------------------------------------------------------------

  /** How repeated coordinates combine: `csr_matrix((data, (row, col)))` sums them;
      a dense fancy-index assignment keeps the last one written. */
  datatype Collision = SumDuplicates | LastWins

  predicate At(e: Entry, i: nat, j: nat) {
    e.row == i && e.col == j
  }

  function CellSum(es: seq<Entry>, i: nat, j: nat): (r: real)
    ensures (forall n :: 0 <= n < |es| ==> !At(es[n], i, j)) ==> r == 0.0
  {
    if |es| == 0 then 0.0
    else (if At(es[0], i, j) then es[0].value else 0.0) + CellSum(es[1..], i, j)
  }

  function CellLast(es: seq<Entry>, i: nat, j: nat): (r: real)
    ensures (forall n :: 0 <= n < |es| ==> !At(es[n], i, j)) ==> r == 0.0
    ensures forall n: nat :: LastAt(es, i, j, n) ==> r == es[n].value
  {
    if |es| == 0 then 0.0
    else if At(es[|es| - 1], i, j) then es[|es| - 1].value
    else
      var init := es[..|es| - 1];
      assert forall n: nat :: LastAt(es, i, j, n) ==> LastAt(init, i, j, n) by {
        forall n: nat | LastAt(es, i, j, n)
          ensures LastAt(init, i, j, n)
        {
          assert n < |init|;
          assert forall n' :: n < n' < |init| ==> init[n'] == es[n'];
        }
      }
      assert (forall n :: 0 <= n < |es| ==> !At(es[n], i, j)) ==> (forall n :: 0 <= n < |init| ==> !At(init[n], i, j)) by {
        assert forall n :: 0 <= n < |init| ==> init[n] == es[n];
      }
      CellLast(init, i, j)
  }

  /** Entry `n` is the last one landing on `(i, j)`. */
  predicate LastAt(es: seq<Entry>, i: nat, j: nat, n: nat) {
    n < |es| && At(es[n], i, j) && forall n' :: n < n' < |es| ==> !At(es[n'], i, j)
  }

  function Cell(policy: Collision, es: seq<Entry>, i: nat, j: nat): real {
    match policy
    case SumDuplicates => CellSum(es, i, j)
    case LastWins => CellLast(es, i, j)
  }

  /** The `len(unique times) x len(unique depths)` matrix, zero where no entry lands. */
  function Matrix(es: seq<Entry>, nt: nat, nd: nat, policy: Collision): (m: seq<seq<real>>)
    ensures |m| == nt
    ensures forall i :: 0 <= i < nt ==> |m[i]| == nd
    ensures forall i, j :: 0 <= i < nt && 0 <= j < nd ==> m[i][j] == Cell(policy, es, i, j)
  {
    seq(nt, i requires 0 <= i < nt => seq(nd, j requires 0 <= j < nd => Cell(policy, es, i, j)))
  }

  function Transpose(m: seq<seq<real>>, nt: nat, nd: nat): (t: seq<seq<real>>)
    requires |m| == nt
    requires forall i :: 0 <= i < nt ==> |m[i]| == nd
    ensures |t| == nd
    ensures forall j :: 0 <= j < nd ==> |t[j]| == nt
    ensures forall i, j :: 0 <= i < nt && 0 <= j < nd ==> t[j][i] == m[i][j]
  {
    seq(nd, j requires 0 <= j < nd => seq(nt, i requires 0 <= i < nt => m[i][j]))
  }

  /** An untouched cell is zero and a cell with exactly one entry holds that entry's
      value, whichever the collision policy. */
  lemma {:induction false} SingleEntryCell(es: seq<Entry>, i: nat, j: nat, n: nat)
    requires n < |es| && At(es[n], i, j)
    requires forall n' :: 0 <= n' < |es| && n' != n ==> !At(es[n'], i, j)
    ensures CellSum(es, i, j) == es[n].value
    ensures CellLast(es, i, j) == es[n].value
  {
    if n == 0 {
      assert forall m :: 0 <= m < |es[1..]| ==> !At(es[1..][m], i, j) by {
        forall m | 0 <= m < |es[1..]|
          ensures !At(es[1..][m], i, j)
        {
          assert es[1..][m] == es[m + 1];
        }
      }
    } else {
      assert !At(es[0], i, j);
      SingleEntryCell(es[1..], i, j, n - 1);
    }
  }

  /** The two collision policies agree on every cell where at most one entry lands. */
  lemma PoliciesAgree(es: seq<Entry>, i: nat, j: nat)
    requires forall n, n' :: 0 <= n < n' < |es| && At(es[n], i, j) ==> !At(es[n'], i, j)
    ensures CellSum(es, i, j) == CellLast(es, i, j)
  {
    if n :| 0 <= n < |es| && At(es[n], i, j) {
      SingleEntryCell(es, i, j, n);
    }
  }

  /** Distinct (time, depth) samples land on distinct cells, so the collision policy
      only matters when the frame repeats a coordinate pair. */
  lemma DistinctSamplesDistinctCells(times: seq<real>, depths: seq<real>, sv: seq<real>,
                                     pow10: real -> real, n: nat, n': nat)
    requires |times| == |depths| == |sv|
    requires forall a, b :: 0 <= a < b < |times| ==> times[a] != times[b] || depths[a] != depths[b]
    requires n < n' < |Entries(times, depths, sv, SortedUnique(times), SortedUnique(depths), pow10, 0)|
    ensures var es := Entries(times, depths, sv, SortedUnique(times), SortedUnique(depths), pow10, 0);
      !At(es[n'], es[n].row, es[n].col)
  {
    var tu, du := SortedUnique(times), SortedUnique(depths);
    var es := Entries(times, depths, sv, tu, du, pow10, 0);
    EntriesSound(times, depths, sv, tu, du, pow10, 0);
    var e, e' := es[n], es[n'];
    assert Describes(e, times, depths, sv, tu, du, pow10);
    assert Describes(e', times, depths, sv, tu, du, pow10);
    var a, b := e.sample, e'.sample;
    assert a < b;
    var ta, tb, da, db := times[a], times[b], depths[a], depths[b];
    assert ta in times && tb in times && da in depths && db in depths;
    if ta != tb {
      BucketInjective(tu, ta, tb);
    } else {
      BucketInjective(du, da, db);
    }
  }

  /** Hence, when no (time, depth) pair repeats, the csr matrix and the dense
      matrix are the same. */
  lemma DistinctSamplesPoliciesAgree(times: seq<real>, depths: seq<real>, sv: seq<real>, pow10: real -> real)
    requires |times| == |depths| == |sv|
    requires forall a, b :: 0 <= a < b < |times| ==> times[a] != times[b] || depths[a] != depths[b]
    ensures var tu, du := SortedUnique(times), SortedUnique(depths);
      var es := Entries(times, depths, sv, tu, du, pow10, 0);
      Matrix(es, |tu|, |du|, SumDuplicates) == Matrix(es, |tu|, |du|, LastWins)
  {
    var tu, du := SortedUnique(times), SortedUnique(depths);
    var es := Entries(times, depths, sv, tu, du, pow10, 0);
    var m1, m2 := Matrix(es, |tu|, |du|, SumDuplicates), Matrix(es, |tu|, |du|, LastWins);
    forall i | 0 <= i < |tu|
      ensures m1[i] == m2[i]
    {
      forall j | 0 <= j < |du|
        ensures m1[i][j] == m2[i][j]
      {
        forall n, n' | 0 <= n < n' < |es| && At(es[n], i, j)
          ensures !At(es[n'], i, j)
        {
          DistinctSamplesDistinctCells(times, depths, sv, pow10, n, n');
        }
        PoliciesAgree(es, i, j);
      }
    }
  }

  /** Different members of a strictly increasing sequence get different buckets. */
  lemma BucketInjective(u: seq<real>, x: real, y: real)
    requires StrictlyIncreasing(u)
    requires x in u && y in u && x != y
    ensures Bucket(u, x) != Bucket(u, y)
  {
    var i :| 0 <= i < |u| && u[i] == x;
    var j :| 0 <= j < |u| && u[j] == y;
    BucketOfMember(u, i);
    BucketOfMember(u, j);
  }

  // ---------------------------------------------------------------------------
  // Target points and dB conversion
  // ---------------------------------------------------------------------------

  /** Row-major `flatten()` of a rectangular two-dimensional array. */
  function Flatten<T>(rows: seq<seq<T>>, w: nat): (r: seq<T>)
    requires forall i :: 0 <= i < |rows| ==> |rows[i]| == w
    ensures |r| == |rows| * w
    ensures forall i, j :: 0 <= i < |rows| && 0 <= j < w ==> FlatIndex(i, w, j) < |r| && r[FlatIndex(i, w, j)] == rows[i][j]
  {
    if |rows| == 0 then []
    else
      var rest := Flatten(rows[1..], w);
      var r := rows[0] + rest;
      MulStep(|rows|, w);
      forall i, j | 0 <= i < |rows| && 0 <= j < w
        ensures FlatIndex(i, w, j) < |r| && r[FlatIndex(i, w, j)] == rows[i][j]
      {
        if i > 0 {
          assert rows[1..][i - 1][j] == rows[i][j];
          assert FlatIndex(i - 1, w, j) < |rest|;
          assert r[FlatIndex(i, w, j)] == rest[FlatIndex(i - 1, w, j)];
        }
      }
      r
  }

  lemma MulStep(n: nat, w: nat)
    requires n > 0
    ensures n * w == w + (n - 1) * w
  {
  }

  /** Position `(i, j)` of a row-major array with rows of width `w`. */
  function FlatIndex(i: nat, w: nat, j: nat): nat {
    if i == 0 then j else w + FlatIndex(i - 1, w, j)
  }

  /** Row `i` starts `i * w` elements in. */
  lemma {:induction false} FlatIndexRowMajor(i: nat, w: nat, j: nat)
    ensures FlatIndex(i, w, j) == i * w + j
  {
    if i > 0 {
      FlatIndexRowMajor(i - 1, w, j);
      MulStep(i, w);
    }
  }

  /** The two conversion passes: `10 * log10(v)` for nonzero values (NaN stays NaN and
      the logarithm of a negative value is NaN), then every value equal to zero
      becomes NaN. The second pass sees the converted array, so an exact zero and a
      value whose dB form is exactly 0 (a linear 1.0) both end as NaN. */
  function ToDb(v: Option<real>, log10: real -> real): (r: Option<real>)
    ensures r.Some? <==> v.Some? && v.value > 0.0 && log10(v.value) != 0.0
    ensures r.Some? ==> r.value != 0.0 && r.value / 10.0 == log10(v.value)
  {
    match v
    case None => None
    case Some(x) =>
      if x == 0.0 then None
      else if x < 0.0 then None
      else
        var db := 10.0 * log10(x);
        if db == 0.0 then None else Some(db)
  }

  /** `10 * log10(10 ** (sv / 10)) == sv`: a stored value read back unchanged by the
      interpolator converts back to its own Sv, except that Sv = 0 dB reads back as
      NaN. */
  lemma DbRoundTrip(sv: real, pow10: real -> real, log10: real -> real)
    requires pow10(sv / 10.0) > 0.0
    requires log10(pow10(sv / 10.0)) == sv / 10.0
    ensures ToDb(Some(pow10(sv / 10.0)), log10) == if sv == 0.0 then None else Some(sv)
  {
  }

  /** An interpolator built from the grid axes, the value matrix and the method name;
      building may raise, and the built object maps a (time, -depth) point to a value
      or NaN. */
  type Build = (seq<real>, seq<real>, seq<seq<real>>, string) -> Result<((real, real)) -> Option<real>, ExcClass>

  function Negate(s: seq<real>): (r: seq<real>)
    ensures |r| == |s|
    ensures forall i :: 0 <= i < |s| ==> r[i] == -s[i]
  {
    seq(|s|, i requires 0 <= i < |s| => -s[i])
  }

  /** The interpolated dB values at the `meshgrid(target_time, -target_depth)`
      points, flattened: one row per target depth. */
  function Sample(f: ((real, real)) -> Option<real>, tt: seq<real>, td: seq<real>, log10: real -> real): (out: seq<Option<real>>)
    ensures |out| == |td| * |tt|
    ensures forall d, t :: 0 <= d < |td| && 0 <= t < |tt| ==> FlatIndex(d, |tt|, t) < |out| && out[FlatIndex(d, |tt|, t)] == ToDb(f((tt[t], -td[d])), log10)
  {
    var rows := seq(|td|, d requires 0 <= d < |td| => Row(f, tt, td[d], log10));
    Flatten(rows, |tt|)
  }

  /** The dB values along one target depth. */
  function Row(f: ((real, real)) -> Option<real>, tt: seq<real>, depth: real, log10: real -> real): (row: seq<Option<real>>)
    ensures |row| == |tt|
    ensures forall t :: 0 <= t < |tt| ==> row[t] == ToDb(f((tt[t], -depth)), log10)
  {
    seq(|tt|, t requires 0 <= t < |tt| => ToDb(f((tt[t], -depth)), log10))
  }

  /** The shared body of both versions, after the columns have been read: bucketing,
      the matrix, building the interpolator, and sampling it. With `transposed`, the
      matrix goes to the interpolator transposed, whose shape check then raises a
      ValueError unless there are as many distinct depths as distinct times. */
  function Remap(times: seq<real>, depths: seq<real>, sv: seq<real>, tt: seq<real>, td: seq<real>,
                 kind: string, policy: Collision, transposed: bool,
                 pow10: real -> real, log10: real -> real, build: Build): (r: Result<seq<Option<real>>, ExcClass>)
    requires |times| == |depths| == |sv|
    ensures r.Ok? ==> |r.value| == |td| * |tt|
  {
    var tu, du := SortedUnique(times), SortedUnique(depths);
    var m := Matrix(Entries(times, depths, sv, tu, du, pow10, 0), |tu|, |du|, policy);
    if transposed && |tu| != |du| then Err(ValueError)
    else
      var values := if transposed then Transpose(m, |tu|, |du|) else m;
      match build(tu, Negate(du), values, kind)
      case Err(e) => Err(e)
      case Ok(f) => Ok(Sample(f, tt, td, log10))
  }

  /** The result of a successful remap is laid out depth-major: the value for target
      depth `d` and target time `t` sits at `d * len(target_time) + t`, and it is the
      dB conversion of the interpolator's value at `(t, -d)`. */
  lemma RemapLayout(times: seq<real>, depths: seq<real>, sv: seq<real>, tt: seq<real>, td: seq<real>,
                    kind: string, policy: Collision, transposed: bool,
                    pow10: real -> real, log10: real -> real, build: Build)
    requires |times| == |depths| == |sv|
    requires Remap(times, depths, sv, tt, td, kind, policy, transposed, pow10, log10, build).Ok?
    ensures var out := Remap(times, depths, sv, tt, td, kind, policy, transposed, pow10, log10, build).value;
      var tu, du := SortedUnique(times), SortedUnique(depths);
      var m := Matrix(Entries(times, depths, sv, tu, du, pow10, 0), |tu|, |du|, policy);
      var f := build(tu, Negate(du), if transposed then Transpose(m, |tu|, |du|) else m, kind);
      f.Ok? && |out| == |td| * |tt|
      && forall d, t :: 0 <= d < |td| && 0 <= t < |tt| ==> FlatIndex(d, |tt|, t) < |out| && out[FlatIndex(d, |tt|, t)] == ToDb(f.value((tt[t], -td[d])), log10)
  {
  }

  // ---------------------------------------------------------------------------
  // The two versions
  // ---------------------------------------------------------------------------

  /** The newer version: validation, then the shared body on the converted times,
      with the csr matrix (duplicates summed); any error of the body becomes a bare
      `Exception`. */
  function RemapChecked(f: FrameArg, tt: ArrayArg, td: ArrayArg, tc: Arg, dc: Arg, sc: Arg, meth: Arg,
                        toTime: real -> real, pow10: real -> real, log10: real -> real, build: Build)
    : (r: Result<seq<Option<real>>, ExcClass>)
    requires f.IsFrame? ==> WellFormed(f.frame)
    ensures Validate(f, tt, td, tc, dc, sc, meth).Some? ==> r == Err(Validate(f, tt, td, tc, dc, sc, meth).value)
    ensures Validate(f, tt, td, tc, dc, sc, meth).None? && r.Err? ==> r.error == BareException
    ensures r.Ok? ==> |r.value| == |td.values| * |tt.values|
  {
    match Validate(f, tt, td, tc, dc, sc, meth)
    case Some(e) => Err(e)
    case None =>
      var fr := f.frame;
      var times := seq(fr.nrows, i requires 0 <= i < fr.nrows => toTime(Column(fr, tc.s)[i]));
      var r := Remap(times, Column(fr, dc.s), Column(fr, sc.s), tt.values, td.values,
                     meth.s, SumDuplicates, false, pow10, log10, build);
      if r.Err? then Err(BareException) else r
  }

  /** In the newer version the matrix shape always matches the grid, so a remap that
      fails after validation fails only because building the interpolator did. */
  lemma CheckedFailsOnlyInBuild(times: seq<real>, depths: seq<real>, sv: seq<real>, tt: seq<real>, td: seq<real>,
                                kind: string, pow10: real -> real, log10: real -> real, build: Build)
    requires |times| == |depths| == |sv|
    ensures var tu, du := SortedUnique(times), SortedUnique(depths);
      var m := Matrix(Entries(times, depths, sv, tu, du, pow10, 0), |tu|, |du|, SumDuplicates);
      (Remap(times, depths, sv, tt, td, kind, SumDuplicates, false, pow10, log10, build).Err?
       <==> build(tu, Negate(du), m, kind).Err?)
  {
  }

  /** The older version: an empty frame is a ValueError, a missing column the pandas
      KeyError (time, depth, signal in that order), and the rest is the shared body
      with the dense matrix (last duplicate wins), passed transposed, method linear. */
  function RemapDense(fr: Frame, tt: seq<real>, td: seq<real>, tc: string, dc: string, sc: string,
                      toTime: real -> real, pow10: real -> real, log10: real -> real, build: Build)
    : (r: Result<seq<Option<real>>, ExcClass>)
    requires WellFormed(fr)
    ensures Empty(fr) ==> r == Err(ValueError)
    ensures !Empty(fr) && !(tc in Names(fr) && dc in Names(fr) && sc in Names(fr)) ==> r == Err(KeyError)
    ensures r.Ok? ==> |r.value| == |td| * |tt|
  {
    if Empty(fr) then Err(ValueError)
    else if tc !in Names(fr) || dc !in Names(fr) || sc !in Names(fr) then Err(KeyError)
    else
      var times := seq(fr.nrows, i requires 0 <= i < fr.nrows => toTime(Column(fr, tc)[i]));
      Remap(times, Column(fr, dc), Column(fr, sc), tt, td, "linear", LastWins, true, pow10, log10, build)
  }

  /** The older version's transposed matrix only fits the (time, depth) grid when the
      counts of distinct times and depths agree; otherwise it raises ValueError, and
      when they agree the interpolator is built. */
  lemma DenseShapeMismatch(times: seq<real>, depths: seq<real>, sv: seq<real>, tt: seq<real>, td: seq<real>,
                           pow10: real -> real, log10: real -> real, build: Build)
    requires |times| == |depths| == |sv|
    ensures |SortedUnique(times)| != |SortedUnique(depths)| ==>
      Remap(times, depths, sv, tt, td, "linear", LastWins, true, pow10, log10, build) == Err(ValueError)
    ensures |SortedUnique(times)| == |SortedUnique(depths)| ==>
      var tu, du := SortedUnique(times), SortedUnique(depths);
      var m := Matrix(Entries(times, depths, sv, tu, du, pow10, 0), |tu|, |du|, LastWins);
      (Remap(times, depths, sv, tt, td, "linear", LastWins, true, pow10, log10, build).Err?
       <==> build(tu, Negate(du), Transpose(m, |tu|, |du|), "linear").Err?)
  {
  }

  /** Sample `s` is kept and lands on cell `(i, j)`. */
  predicate LandsOn(times: seq<real>, depths: seq<real>, tu: seq<real>, du: seq<real>, s: nat, i: nat, j: nat)
    requires |times| == |depths|
  {
    s < |times| && Kept(tu, du, times[s], depths[s]) && Bucket(tu, times[s]) == i && Bucket(du, depths[s]) == j
  }

  /** The matrix starts at zero: a cell no kept sample lands on stays zero under
      either collision policy. */
  lemma UntouchedCellIsZero(times: seq<real>, depths: seq<real>, sv: seq<real>, pow10: real -> real,
                            policy: Collision, i: nat, j: nat)
    requires |times| == |depths| == |sv|
    requires i < |SortedUnique(times)| && j < |SortedUnique(depths)|
    requires forall s :: 0 <= s < |times| ==> !LandsOn(times, depths, SortedUnique(times), SortedUnique(depths), s, i, j)
    ensures var tu, du := SortedUnique(times), SortedUnique(depths);
      Matrix(Entries(times, depths, sv, tu, du, pow10, 0), |tu|, |du|, policy)[i][j] == 0.0
  {
    var tu, du := SortedUnique(times), SortedUnique(depths);
    var es := Entries(times, depths, sv, tu, du, pow10, 0);
    EntriesSound(times, depths, sv, tu, du, pow10, 0);
    forall n | 0 <= n < |es|
      ensures !At(es[n], i, j)
    {
      var e := es[n];
      assert Describes(e, times, depths, sv, tu, du, pow10);
      assert !LandsOn(times, depths, tu, du, e.sample, i, j);
    }
  }

  /** A cell exactly one kept sample lands on holds that sample's `10 ** (Sv / 10)`,
      under either collision policy. */
  lemma SingleSampleCell(times: seq<real>, depths: seq<real>, sv: seq<real>, pow10: real -> real,
                         policy: Collision, i: nat, j: nat, s: nat)
    requires |times| == |depths| == |sv|
    requires i < |SortedUnique(times)| && j < |SortedUnique(depths)|
    requires LandsOn(times, depths, SortedUnique(times), SortedUnique(depths), s, i, j)
    requires forall s' :: 0 <= s' < |times| && s' != s ==> !LandsOn(times, depths, SortedUnique(times), SortedUnique(depths), s', i, j)
    ensures var tu, du := SortedUnique(times), SortedUnique(depths);
      Matrix(Entries(times, depths, sv, tu, du, pow10, 0), |tu|, |du|, policy)[i][j] == pow10(sv[s] / 10.0)
  {
    var tu, du := SortedUnique(times), SortedUnique(depths);
    var es := Entries(times, depths, sv, tu, du, pow10, 0);
    EntriesSound(times, depths, sv, tu, du, pow10, 0);
    EntriesComplete(times, depths, sv, tu, du, pow10, 0, s);
    SingleEntryValue(es, times, depths, sv, tu, du, pow10, i, j, s);
    var m := Matrix(es, |tu|, |du|, policy);
    assert m[i][j] == Cell(policy, es, i, j);
  }

  lemma SingleEntryValue(es: seq<Entry>, times: seq<real>, depths: seq<real>, sv: seq<real>, tu: seq<real>, du: seq<real>,
                         pow10: real -> real, i: nat, j: nat, s: nat)
    requires |times| == |depths| == |sv|
    requires Sound(es, times, depths, sv, tu, du, pow10, 0)
    requires HasEntry(es, s)
    requires forall s' :: 0 <= s' < |times| && s' != s ==> !LandsOn(times, depths, tu, du, s', i, j)
    requires LandsOn(times, depths, tu, du, s, i, j)
    ensures CellSum(es, i, j) == pow10(sv[s] / 10.0)
    ensures CellLast(es, i, j) == pow10(sv[s] / 10.0)
  {
    var n :| 0 <= n < |es| && es[n].sample == s;
    var e0 := es[n];
    assert Describes(e0, times, depths, sv, tu, du, pow10);
    assert e0.value == pow10(sv[s] / 10.0);
    forall n' | 0 <= n' < |es| && n' != n
      ensures !At(es[n'], i, j)
    {
      var e := es[n'];
      assert Describes(e, times, depths, sv, tu, du, pow10);
      assert e.sample != s by {
        if n' < n {
          assert e.sample < e0.sample;
        } else {
          assert e0.sample < e.sample;
        }
      }
      assert !LandsOn(times, depths, tu, du, e.sample, i, j);
    }
    SingleEntryCell(es, i, j, n);
  }
}
