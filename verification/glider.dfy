/** `extract_glider_data` in its two versions: read the glider's GPS fixes, combine
    their date and time columns into datetimes, sort the fixes by time (and, in the
    later version, keep only those up to 2022-10-07 00:00), then unzip them into
    longitudes, latitudes and times. The CSV read and the pickle dump are left out:
    the rows arrive as a sequence. */
module GliderExtraction {
  import opened Wrappers
  import opened DateTimeParse
  import opened DateTimeOrder
  import opened Ordering

  /** One row of the GPS file: the columns `Longitude`, `Latitude`, `GPS_date`,
      `GPS_time`. */
  datatype Row = Row(lon: real, lat: real, date: DateArg, time: string)

  /** One `(lon, lat, datetime)` tuple of the zipped list. */
  datatype Fix = Fix(lon: real, lat: real, time: DateTime)

  /** The returned matrix: longitudes, latitudes and datetimes. */
  datatype Track = Track(lons: seq<real>, lats: seq<real>, times: seq<DateTime>)

  function Dates(rows: seq<Row>): (r: seq<DateArg>)
    ensures |r| == |rows| && forall i :: 0 <= i < |r| ==> r[i] == rows[i].date
  {
    seq(|rows|, i requires 0 <= i < |rows| => rows[i].date)
  }

  function Times(rows: seq<Row>): (r: seq<string>)
    ensures |r| == |rows| && forall i :: 0 <= i < |r| ==> r[i] == rows[i].time
  {
    seq(|rows|, i requires 0 <= i < |rows| => rows[i].time)
  }

  function TimesOf(fs: seq<Fix>): (r: seq<DateTime>)
    ensures |r| == |fs| && forall i :: 0 <= i < |r| ==> r[i] == fs[i].time
  {
    seq(|fs|, i requires 0 <= i < |fs| => fs[i].time)
  }

  /** The sort key: `key=lambda x: x[2]`, through the datetime's ordinal. */
  function Key(f: Fix): int {
    Ordinal(f.time)
  }

  /** The zipped list before sorting: each row's position, coordinates and combined
      datetime, or the exception `combine_date_time` raises. */
  function Fixes(rows: seq<Row>): (r: Result<seq<Fix>, ExcClass>)
    ensures r.Err? <==> CombineDateTime(Dates(rows), Times(rows)).Err?
    ensures r.Err? ==> r.error == CombineDateTime(Dates(rows), Times(rows)).error
    ensures r.Ok? ==> (|r.value| == |rows| > 0
      && CombineDateTime(Dates(rows), Times(rows)) == Ok(TimesOf(r.value))
      && (forall i :: 0 <= i < |rows| ==> r.value[i].lon == rows[i].lon && r.value[i].lat == rows[i].lat)
      && AllValid(r.value))
  {
    match CombineDateTime(Dates(rows), Times(rows))
    case Err(e) => Err(e)
    case Ok(ts) => Ok(Attach(rows, ts))
  }

  /** Each row's coordinates with its datetime. */
  function Attach(rows: seq<Row>, ts: seq<DateTime>): (fs: seq<Fix>)
    requires |ts| == |rows|
    ensures |fs| == |rows| && TimesOf(fs) == ts
    ensures forall i :: 0 <= i < |rows| ==> fs[i].lon == rows[i].lon && fs[i].lat == rows[i].lat
    ensures (forall i :: 0 <= i < |ts| ==> Valid(ts[i])) ==> AllValid(fs)
  {
    var fs := seq(|rows|, i requires 0 <= i < |rows| => Fix(rows[i].lon, rows[i].lat, ts[i]));
    assert TimesOf(fs) == ts;
    fs
  }

  /** `zip(*zipped)` unpacked into three names: an empty list has nothing to unpack,
      a ValueError. */
  function Unzip(fs: seq<Fix>): (r: Result<Track, ExcClass>)
    ensures r.Err? <==> |fs| == 0
    ensures r.Err? ==> r.error == ValueError
    ensures r.Ok? ==> (|r.value.lons| == |r.value.lats| == |r.value.times| == |fs|
      && forall i :: 0 <= i < |fs| ==> fs[i] == Fix(r.value.lons[i], r.value.lats[i], r.value.times[i]))
  {
    if |fs| == 0 then Err(ValueError)
    else
      Ok(Track(seq(|fs|, i requires 0 <= i < |fs| => fs[i].lon),
               seq(|fs|, i requires 0 <= i < |fs| => fs[i].lat),
               TimesOf(fs)))
  }

  /** The last instant kept by the later version. */
  const DateEnd := DateTime(2022, 10, 7, 0, 0, 0, 0)

  /** `[elt for elt in fs if elt[2] <= end]`, comparing by ordinal. */
  function UpTo(fs: seq<Fix>, end: int): (r: seq<Fix>)
    ensures |r| <= |fs|
    ensures forall i :: 0 <= i < |r| ==> Key(r[i]) <= end
    ensures forall x :: x in r ==> x in fs
  {
    if |fs| == 0 then []
    else (if Key(fs[0]) <= end then [fs[0]] else []) + UpTo(fs[1..], end)
  }

  /** The filter keeps every occurrence of each fix not after `end`, and nothing else. */
  lemma {:induction false} UpToCount(fs: seq<Fix>, end: int)
    ensures forall x :: multiset(UpTo(fs, end))[x] == if Key(x) <= end then multiset(fs)[x] else 0
  {
    if |fs| > 0 {
      UpToCount(fs[1..], end);
      assert fs == [fs[0]] + fs[1..];
    }
  }

  /** A filter keeps a key-sorted list sorted. */
  lemma {:induction false} UpToSorted(fs: seq<Fix>, end: int)
    requires SortedByKey(fs, Key)
    ensures SortedByKey(UpTo(fs, end), Key)
  {
    if |fs| > 0 {
      var rest := UpTo(fs[1..], end);
      assert SortedByKey(fs[1..], Key) by {
        forall i, j | 0 <= i < j < |fs| - 1
          ensures Key(fs[1..][i]) <= Key(fs[1..][j])
        {
          assert fs[1..][i] == fs[i + 1] && fs[1..][j] == fs[j + 1];
        }
      }
      UpToSorted(fs[1..], end);
      if Key(fs[0]) <= end {
        assert KeysAtLeast(rest, Key, Key(fs[0])) by {
          forall i | 0 <= i < |rest|
            ensures Key(fs[0]) <= Key(rest[i])
          {
            var x := rest[i];
            assert x in rest;
            assert x in fs[1..];
            var j :| 0 <= j < |fs| - 1 && fs[1..][j] == x;
            assert fs[j + 1] == x;
          }
        }
        InsertFrontSorted'(fs[0], rest, Key);
      }
    }
  }

  /** A filter keeps each surviving key's elements in their order. */
  lemma {:induction false} UpToKeys(fs: seq<Fix>, end: int)
    ensures forall k :: WithKey(UpTo(fs, end), Key, k) == if k <= end then WithKey(fs, Key, k) else []
  {
    if |fs| > 0 {
      var rest := UpTo(fs[1..], end);
      UpToKeys(fs[1..], end);
      if Key(fs[0]) <= end {
        InsertFrontKeys(fs[0], rest, Key);
      } else {
        assert UpTo(fs, end) == rest;
      }
      InsertFrontKeys(fs[0], fs[1..], Key);
      assert [fs[0]] + fs[1..] == fs;
    }
  }

  /** Every fix carries a datetime the constructor accepts, as those
      `combine_date_time` returns do. */
  predicate AllValid(fs: seq<Fix>) {
    forall i :: 0 <= i < |fs| ==> Valid(fs[i].time)
  }

  /** Sort the zipped fixes by time and unzip them. */
  function SortFixes(fs: seq<Fix>): (r: Result<Track, ExcClass>)
    requires AllValid(fs)
    ensures r.Err? <==> |fs| == 0
    ensures r.Err? ==> r.error == ValueError
    ensures r.Ok? ==> (|r.value.times| == |fs|
      && forall i, j :: 0 <= i < j < |fs| ==> NotAfter(r.value.times[i], r.value.times[j]))
  {
    var sorted := StableSortByKey(fs, Key);
    SameMembers(sorted, fs);
    SortedTimesInOrder(fs, sorted);
    Unzip(sorted)
  }

  /** Sort the zipped fixes by time, keep those not after `DateEnd`, and unzip them. */
  function CutFixes(fs: seq<Fix>): (r: Result<Track, ExcClass>)
    requires AllValid(fs)
    ensures r.Err? ==> r.error == ValueError
    ensures r.Ok? ==> (|r.value.times| <= |fs|
      && (forall i :: 0 <= i < |r.value.times| ==> NotAfter(r.value.times[i], DateEnd))
      && forall i, j :: 0 <= i < j < |r.value.times| ==> NotAfter(r.value.times[i], r.value.times[j]))
  {
    var sorted := StableSortByKey(fs, Key);
    var kept := UpTo(sorted, Ordinal(DateEnd));
    SameMembers(sorted, fs);
    UpToSorted(sorted, Ordinal(DateEnd));
    SortedTimesInOrder(fs, kept);
    KeptBeforeEnd(fs, kept);
    Unzip(kept)
  }

  /** glider_data_extraction.py: combine, then sort by time, then unzip. */
  function ExtractSorted(rows: seq<Row>): (r: Result<Track, ExcClass>)
    ensures r.Err? <==> Fixes(rows).Err?
    ensures r.Err? ==> r.error == Fixes(rows).error
    ensures r.Ok? ==> r == SortFixes(Fixes(rows).value) && |r.value.times| == |rows|
  {
    match Fixes(rows)
    case Err(e) => Err(e)
    case Ok(fs) => SortFixes(fs)
  }

  /** glider_def_and_processing/glider_data_extraction.py: combine, sort by time,
      keep the fixes up to `DateEnd`, then unzip. */
  function ExtractUntilCutoff(rows: seq<Row>): (r: Result<Track, ExcClass>)
    ensures Fixes(rows).Err? ==> r == Err(Fixes(rows).error)
    ensures Fixes(rows).Ok? ==> r == CutFixes(Fixes(rows).value)
  {
    match Fixes(rows)
    case Err(e) => Err(e)
    case Ok(fs) => CutFixes(fs)
  }

  /** The returned matrix zipped back into tuples. */
  function Rezip(t: Track): (r: seq<Fix>)
    requires |t.lons| == |t.lats| == |t.times|
    ensures |r| == |t.times|
  {
    seq(|t.times|, i requires 0 <= i < |t.times| => Fix(t.lons[i], t.lats[i], t.times[i]))
  }

  lemma UnzipRezip(fs: seq<Fix>)
    requires |fs| > 0
    ensures Unzip(fs).Ok? && Rezip(Unzip(fs).value) == fs
  {
  }

  /** Sorting returns a stable sort of the fixes: the same tuples, each longitude and
      latitude with its own time, in time order, with fixes at equal times in file
      order. */
  lemma SortFixesPermutes(fs: seq<Fix>)
    requires AllValid(fs) && |fs| > 0
    ensures SortFixes(fs).Ok?
    ensures var out := Rezip(SortFixes(fs).value);
      multiset(out) == multiset(fs) && forall k :: WithKey(out, Key, k) == WithKey(fs, Key, k)
  {
    UnzipRezip(StableSortByKey(fs, Key));
  }

  /** Only a failed combine makes the older version raise; empty input is one. */
  lemma ExtractSortedErrors(rows: seq<Row>)
    ensures ExtractSorted(rows).Err? <==> CombineDateTime(Dates(rows), Times(rows)).Err?
    ensures |rows| == 0 ==> ExtractSorted(rows) == Err(IndexError)
  {
  }

  /** The later version keeps exactly the fixes of the older one that are not after
      `DateEnd`, in the same order; if none is left it raises ValueError. */
  lemma CutoffFiltersSorted(fs: seq<Fix>)
    requires AllValid(fs) && |fs| > 0
    ensures CutFixes(fs).Err? <==> forall i :: 0 <= i < |fs| ==> !NotAfter(fs[i].time, DateEnd)
    ensures CutFixes(fs).Ok? ==> Rezip(CutFixes(fs).value) == UpTo(Rezip(SortFixes(fs).value), Ordinal(DateEnd))
    ensures CutFixes(fs).Ok? ==> forall x: Fix :: Valid(x.time) ==>
      multiset(Rezip(CutFixes(fs).value))[x] == if NotAfter(x.time, DateEnd) then multiset(fs)[x] else 0
  {
    var sorted := StableSortByKey(fs, Key);
    var end := Ordinal(DateEnd);
    var kept := UpTo(sorted, end);
    UnzipRezip(sorted);
    UpToEmpty(sorted, fs, end);
    KeyIsNotAfterEnd();
    if |kept| > 0 {
      UnzipRezip(kept);
      UpToCount(sorted, end);
    }
  }

  /** The filter leaves nothing exactly when no fix has a key up to `end`. */
  lemma UpToEmpty(sorted: seq<Fix>, fs: seq<Fix>, end: int)
    requires multiset(sorted) == multiset(fs)
    ensures |UpTo(sorted, end)| == 0 <==> forall i :: 0 <= i < |fs| ==> Key(fs[i]) > end
  {
    var kept := UpTo(sorted, end);
    if |kept| == 0 {
      UpToCount(sorted, end);
      forall i | 0 <= i < |fs|
        ensures Key(fs[i]) > end
      {
        var x := fs[i];
        assert x in multiset(fs);
        assert multiset(kept)[x] == 0;
      }
    } else {
      var x := kept[0];
      assert x in kept;
      SameMembers(sorted, fs);
      assert x in fs;
    }
  }

  /** The ordinal comparison against `DateEnd` is the datetime comparison. */
  lemma KeyIsNotAfterEnd()
    ensures forall x: Fix :: Valid(x.time) ==> (Key(x) <= Ordinal(DateEnd) <==> NotAfter(x.time, DateEnd))
  {
    forall x: Fix | Valid(x.time)
      ensures Key(x) <= Ordinal(DateEnd) <==> NotAfter(x.time, DateEnd)
    {
      OrdinalNotAfter(x.time, DateEnd);
    }
  }

  /** The fixes the ordinal puts in order are in datetime order. */
  lemma SortedTimesInOrder(fs: seq<Fix>, r: seq<Fix>)
    requires forall i :: 0 <= i < |fs| ==> Valid(fs[i].time)
    requires forall x :: x in r ==> x in fs
    requires SortedByKey(r, Key)
    ensures forall i, j :: 0 <= i < j < |r| ==> NotAfter(r[i].time, r[j].time)
  {
    forall i, j | 0 <= i < j < |r|
      ensures NotAfter(r[i].time, r[j].time)
    {
      ValidMember(fs, r, i);
      ValidMember(fs, r, j);
      OrdinalNotAfter(r[i].time, r[j].time);
    }
  }

  /** What the ordinal filter keeps is not after `DateEnd`. */
  lemma KeptBeforeEnd(fs: seq<Fix>, r: seq<Fix>)
    requires forall i :: 0 <= i < |fs| ==> Valid(fs[i].time)
    requires forall x :: x in r ==> x in fs
    requires forall i :: 0 <= i < |r| ==> Key(r[i]) <= Ordinal(DateEnd)
    ensures forall i :: 0 <= i < |r| ==> NotAfter(r[i].time, DateEnd)
  {
    forall i | 0 <= i < |r|
      ensures NotAfter(r[i].time, DateEnd)
    {
      ValidMember(fs, r, i);
      OrdinalNotAfter(r[i].time, DateEnd);
    }
  }

  lemma SameMembers(a: seq<Fix>, b: seq<Fix>)
    requires multiset(a) == multiset(b)
    ensures forall x :: x in a ==> x in b
  {
    forall x | x in a
      ensures x in b
    {
      assert x in multiset(a);
    }
  }

  lemma ValidMember(fs: seq<Fix>, r: seq<Fix>, i: nat)
    requires forall k :: 0 <= k < |fs| ==> Valid(fs[k].time)
    requires forall x :: x in r ==> x in fs
    requires i < |r|
    ensures Valid(r[i].time)
  {
    var x := r[i];
    assert x in r;
    assert x in fs;
  }
}
