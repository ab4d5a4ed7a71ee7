/** The vessel extraction scripts: the echo-sounder track reshaping
    (`extract_vessel_echo_data`, and the older `extract_vessel_data`) with its output
    file name, and the fishing-haul record (`extract_vessel_fishing_data`, in the
    later version with the transect and the older one without). Spreadsheet reads,
    the colour palette file and the pickle dumps are left out: tables and the
    palette arrive as values. */
module VesselRecords {
  import opened Wrappers
  import opened PyStr
  import opened PySeq
  import opened DateTimeParse

  // ---------------------------------------------------------------------------
  // Echo-sounder tracks
  // ---------------------------------------------------------------------------

  /** One row of the echo CSV: the columns `Lon_M`, `Lat_M`, `Date_M`, `Time_M`. */
  datatype EchoRow = EchoRow(lon: real, lat: real, date: DateArg, time: string)

  /** The returned list `[longitudes, latitudes, datetimes]`. */
  datatype EchoTrack = EchoTrack(lons: seq<real>, lats: seq<real>, times: seq<DateTime>)

  /** The pickle's file name: `file[-30:-20] + '.pkl'`. */
  function EchoFileName(file: string): (name: string)
    ensures |name| == 4 + (if |file| >= 30 then 10 else if |file| > 20 then |file| - 20 else 0)
    ensures name[|name| - 4..] == ".pkl"
  {
    Slice(file, -30, -20) + ".pkl"
  }

  /** A path ending in a ten-character survey id followed by a twenty-character
      suffix (as in `EB20220904_fullwatercolumn.csv`) is saved under the id. */
  lemma EchoFileNameOfId(prefix: string, id: string, suffix: string)
    requires |id| == 10 && |suffix| == 20
    ensures EchoFileName(prefix + id + suffix) == id + ".pkl"
  {
    var file := prefix + id + suffix;
    var r := Slice(file, -30, -20);
    assert |r| == 10;
    forall m | 0 <= m < 10
      ensures r[m] == id[m]
    {
      assert r[m] == file[|prefix| + m];
    }
  }

  /** A path of at most twenty characters gives the bare name `.pkl`. */
  lemma EchoFileNameShort(file: string)
    requires |file| <= 20
    ensures EchoFileName(file) == ".pkl"
  {
    assert Slice(file, -30, -20) == [];
  }

  /** Both versions: the longitude and latitude columns as read, and the datetimes
      `combine_date_time` makes of the date and time columns; its exception
      propagates. The matrix is saved under `EchoFileName(file)`. */
  function ExtractEcho(rows: seq<EchoRow>): (r: Result<EchoTrack, ExcClass>)
    ensures r.Err? <==> CombineDateTime(EchoDates(rows), EchoTimes(rows)).Err?
    ensures r.Err? ==> r.error == CombineDateTime(EchoDates(rows), EchoTimes(rows)).error
    ensures r.Ok? ==> (CombineDateTime(EchoDates(rows), EchoTimes(rows)) == Ok(r.value.times)
      && |r.value.lons| == |r.value.lats| == |r.value.times| == |rows|
      && forall i :: 0 <= i < |rows| ==> r.value.lons[i] == rows[i].lon && r.value.lats[i] == rows[i].lat)
  {
    var c := CombineDateTime(EchoDates(rows), EchoTimes(rows));
    if c.Err? then Err(c.error)
    else
      assert |c.value| == |rows|;
      Ok(EchoTrack(Lons(rows), Lats(rows), c.value))
  }

  function Lons(rows: seq<EchoRow>): (r: seq<real>)
    ensures |r| == |rows| && forall i :: 0 <= i < |r| ==> r[i] == rows[i].lon
  {
    seq(|rows|, i requires 0 <= i < |rows| => rows[i].lon)
  }

  function Lats(rows: seq<EchoRow>): (r: seq<real>)
    ensures |r| == |rows| && forall i :: 0 <= i < |r| ==> r[i] == rows[i].lat
  {
    seq(|rows|, i requires 0 <= i < |rows| => rows[i].lat)
  }

  function EchoDates(rows: seq<EchoRow>): (r: seq<DateArg>)
    ensures |r| == |rows| && forall i :: 0 <= i < |r| ==> r[i] == rows[i].date
  {
    seq(|rows|, i requires 0 <= i < |rows| => rows[i].date)
  }

  function EchoTimes(rows: seq<EchoRow>): (r: seq<string>)
    ensures |r| == |rows| && forall i :: 0 <= i < |r| ==> r[i] == rows[i].time
  {
    seq(|rows|, i requires 0 <= i < |rows| => rows[i].time)
  }

  // ---------------------------------------------------------------------------
  // Fishing hauls
  // ---------------------------------------------------------------------------

  /** One row of the hauls sheet. The coordinates are `None` where the cell is NaN;
      `cells` is the whole row in column order, species masses included. */
  datatype HaulRow = HaulRow(
    haul: int,
    iLon: Option<real>, iLat: Option<real>, fLon: Option<real>, fLat: Option<real>,
    date: DateTime, radial: int,
    cells: seq<Option<real>>)

  /** The sheet: its column names and its rows. */
  datatype Sheet = Sheet(columns: seq<string>, rows: seq<HaulRow>)

  /** An RGBA colour of the palette, as `c.tolist()` gives it. */
  type Color = seq<real>

  /** The saved dictionary. `transect` is absent in the older version. */
  datatype FishingRecord = FishingRecord(
    locI: seq<Option<real>>, locF: seq<Option<real>>, date: DateTime,
    species: seq<string>, masses: seq<Option<real>>, colors: seq<Color>,
    transect: Option<int>)

  /** `columns.get_indexer([name])[0]`: the position of `name`, or -1. */
  function Indexer(columns: seq<string>, name: string): (k: int)
    ensures -1 <= k < |columns|
    ensures k == -1 <==> name !in columns
    ensures k >= 0 ==> columns[k] == name && name !in columns[..k]
  {
    if |columns| == 0 then -1
    else if columns[0] == name then 0
    else
      var k := Indexer(columns[1..], name);
      assert k >= 0 ==> columns[..k + 1] == [columns[0]] + columns[1..][..k];
      if k == -1 then -1 else k + 1
  }

  /** The first row for the haul, as `df[df['HAUL'] == haul].iloc[0]` picks it. */
  function FirstRow(rows: seq<HaulRow>, haul: int): (r: Option<nat>)
    ensures r.None? <==> forall i :: 0 <= i < |rows| ==> rows[i].haul != haul
    ensures r.Some? ==> (r.value < |rows| && rows[r.value].haul == haul
      && forall i :: 0 <= i < r.value ==> rows[i].haul != haul)
  {
    if |rows| == 0 then None
    else if rows[0].haul == haul then Some(0)
    else
      match FirstRow(rows[1..], haul)
      case None => None
      case Some(k) => Some(k + 1)
  }

  /** `m != 0`: a NaN mass is not equal to zero, so it passes. */
  predicate NonZero(m: Option<real>) {
    m.None? || m.value != 0.0
  }

  /** `[x for x, m in zip(xs, ms) if m != 0]` from position `i` on: `zip` stops at
      the shorter list. */
  function KeepNonZero<T>(xs: seq<T>, ms: seq<Option<real>>, i: nat): (r: seq<T>)
    requires i <= |xs| && i <= |ms|
    ensures |r| <= |xs| - i && |r| <= |ms| - i
    decreases |xs| - i
  {
    if i >= |xs| || i >= |ms| then []
    else (if NonZero(ms[i]) then [xs[i]] else []) + KeepNonZero(xs, ms, i + 1)
  }

  function Prefix(ms: seq<Option<real>>, n: nat): (r: seq<Option<real>>)
    ensures |r| == if n < |ms| then n else |ms|
  {
    if n < |ms| then ms[..n] else ms
  }

  /** The kept elements are those at the positions of the nonzero masses, in order:
      the `j`-th kept element sits where the `j`-th nonzero (or NaN) mass sits. */
  lemma {:induction false} KeepNonZeroAtPositions<T>(xs: seq<T>, ms: seq<Option<real>>, i: nat)
    requires i <= |xs| && i <= |ms|
    ensures var w := Where(Prefix(ms, |xs|), NonZero, i);
      |KeepNonZero(xs, ms, i)| == |w|
      && forall j :: 0 <= j < |w| ==> w[j] < |xs| && KeepNonZero(xs, ms, i)[j] == xs[w[j]]
    decreases |xs| - i
  {
    var p := Prefix(ms, |xs|);
    if i < |xs| && i < |ms| {
      KeepNonZeroAtPositions(xs, ms, i + 1);
      assert p[i] == ms[i];
      var w' := Where(p, NonZero, i + 1);
      var k' := KeepNonZero(xs, ms, i + 1);
      if NonZero(ms[i]) {
        var w := [i] + w';
        assert Where(p, NonZero, i) == w;
        var k := [xs[i]] + k';
        forall j | 0 <= j < |w|
          ensures w[j] < |xs| && k[j] == xs[w[j]]
        {
          if j > 0 {
            assert w[j] == w'[j - 1] && k[j] == k'[j - 1];
          }
        }
      } else {
        assert Where(p, NonZero, i) == w';
      }
    } else {
      assert |p| == i;
    }
  }

  /** The species filter over the whole row: names, colours and masses, each kept
      where the mass is nonzero. */
  function SpeciesOf(sheet: Sheet, row: HaulRow, palette: seq<Color>):
    (r: (seq<string>, seq<Option<real>>, seq<Color>))
    ensures forall j :: 0 <= j < |r.1| ==> NonZero(r.1[j])
  {
    var a, b := Indexer(sheet.columns, "ANE"), Indexer(sheet.columns, "OT");
    var names := Slice(sheet.columns, a, b);
    var masses := Slice(row.cells, a, b);
    KeepNonZeroAtPositions(masses, masses, 0);
    (KeepNonZero(names, masses, 0), KeepNonZero(masses, masses, 0), KeepNonZero(palette, masses, 0))
  }

  /** The record of one row. */
  function RecordOf(sheet: Sheet, row: HaulRow, palette: seq<Color>, transect: Option<int>):
    (r: FishingRecord)
    ensures r.locI == [row.iLon, row.iLat] && r.locF == [row.fLon, row.fLat] && r.date == row.date
    ensures r.transect == transect
    ensures forall j :: 0 <= j < |r.masses| ==> NonZero(r.masses[j])
  {
    var sp := SpeciesOf(sheet, row, palette);
    FishingRecord([row.iLon, row.iLat], [row.fLon, row.fLat], row.date, sp.0, sp.1, sp.2, transect)
  }

  /** `f'haul_{transect}_{haul}.pkl'`. */
  function HaulFileName(transect: int, haul: int): string {
    "haul_" + IntToString(transect) + "_" + IntToString(haul) + ".pkl"
  }

  /** `f'haul_{haul}.pkl'`. */
  function OldHaulFileName(haul: int): string {
    "haul_" + IntToString(haul) + ".pkl"
  }

  /** src/vessel_fishing_processing: the record of the haul's first row, carrying its
      transect (`Radial`), saved as `haul_{transect}_{haul}.pkl`; a haul with no row
      raises ValueError. */
  function ExtractFishing(sheet: Sheet, palette: seq<Color>, haul: int): (r: Result<(FishingRecord, string), ExcClass>)
    ensures r.Err? <==> forall i :: 0 <= i < |sheet.rows| ==> sheet.rows[i].haul != haul
    ensures r.Err? ==> r.error == ValueError
    ensures r.Ok? ==> exists k :: (0 <= k < |sheet.rows| && sheet.rows[k].haul == haul
      && (forall i :: 0 <= i < k ==> sheet.rows[i].haul != haul)
      && r.value.0 == RecordOf(sheet, sheet.rows[k], palette, Some(sheet.rows[k].radial))
      && r.value.1 == HaulFileName(sheet.rows[k].radial, haul))
  {
    match FirstRow(sheet.rows, haul)
    case None => Err(ValueError)
    case Some(k) =>
      var row := sheet.rows[k];
      Ok((RecordOf(sheet, row, palette, Some(row.radial)), HaulFileName(row.radial, haul)))
  }

  /** fishing_data_processing: the same record without the transect, saved as
      `haul_{haul}.pkl`. */
  function ExtractFishingOld(sheet: Sheet, palette: seq<Color>, haul: int): (r: Result<(FishingRecord, string), ExcClass>)
    ensures r.Err? <==> forall i :: 0 <= i < |sheet.rows| ==> sheet.rows[i].haul != haul
    ensures r.Err? ==> r.error == ValueError
    ensures r.Ok? ==> r.value.1 == OldHaulFileName(haul) && r.value.0.transect.None?
  {
    match FirstRow(sheet.rows, haul)
    case None => Err(ValueError)
    case Some(k) => Ok((RecordOf(sheet, sheet.rows[k], palette, None), OldHaulFileName(haul)))
  }

  /** The two versions build the same record apart from the transect. */
  lemma FishingVersionsAgree(sheet: Sheet, palette: seq<Color>, haul: int)
    ensures ExtractFishing(sheet, palette, haul).Ok? <==> ExtractFishingOld(sheet, palette, haul).Ok?
    ensures ExtractFishing(sheet, palette, haul).Ok? ==>
      ExtractFishing(sheet, palette, haul).value.0.(transect := None)
      == ExtractFishingOld(sheet, palette, haul).value.0
  {
  }

  /** The species names and the row's mass cells between `ANE` and `OT`. */
  function SpeciesNames(sheet: Sheet): seq<string> {
    Slice(sheet.columns, Indexer(sheet.columns, "ANE"), Indexer(sheet.columns, "OT"))
  }

  function MassCells(sheet: Sheet, row: HaulRow): seq<Option<real>> {
    Slice(row.cells, Indexer(sheet.columns, "ANE"), Indexer(sheet.columns, "OT"))
  }

  /** The three lists are filtered jointly: the `j`-th kept species, mass and colour
      all come from the `j`-th column whose mass is nonzero or NaN, and every such
      column is kept, in order. */
  lemma SpeciesAligned(sheet: Sheet, row: HaulRow, palette: seq<Color>)
    requires |row.cells| == |sheet.columns|
    requires |palette| >= |MassCells(sheet, row)|
    ensures var sp, w := SpeciesOf(sheet, row, palette), Where(MassCells(sheet, row), NonZero, 0);
      |sp.0| == |sp.1| == |sp.2| == |w|
      && (forall j :: 0 <= j < |w| ==>
            (w[j] < |SpeciesNames(sheet)| && sp.0[j] == SpeciesNames(sheet)[w[j]]
             && sp.1[j] == MassCells(sheet, row)[w[j]] && sp.2[j] == palette[w[j]]))
      && forall k :: 0 <= k < |MassCells(sheet, row)| && NonZero(MassCells(sheet, row)[k]) ==> k in w
  {
    var names, masses := SpeciesNames(sheet), MassCells(sheet, row);
    assert |names| == |masses|;
    assert Prefix(masses, |names|) == masses;
    assert Prefix(masses, |masses|) == masses;
    KeepNonZeroAtPositions(names, masses, 0);
    KeepNonZeroAtPositions(masses, masses, 0);
    KeepNonZeroAtPositions(palette, masses, 0);
    assert Prefix(masses, |palette|) == masses;
  }

  /** Different hauls go to different files in the older version. */
  lemma OldHaulFileNameInjective(h1: int, h2: int)
    requires OldHaulFileName(h1) == OldHaulFileName(h2)
    ensures h1 == h2
  {
    var s1, s2 := IntToString(h1), IntToString(h2);
    var n1, n2 := OldHaulFileName(h1), OldHaulFileName(h2);
    assert |s1| == |s2|;
    assert s1 == n1[5..5 + |s1|] && s2 == n2[5..5 + |s2|];
    IntToStringInjective(h1, h2);
  }

  /** Within one transect, different hauls go to different files. */
  lemma HaulFileNameInjective(t: int, h1: int, h2: int)
    requires HaulFileName(t, h1) == HaulFileName(t, h2)
    ensures h1 == h2
  {
    var s1, s2 := IntToString(h1), IntToString(h2);
    var n1, n2 := HaulFileName(t, h1), HaulFileName(t, h2);
    var k := 6 + |IntToString(t)|;
    assert |s1| == |s2|;
    assert s1 == n1[k..k + |s1|] && s2 == n2[k..k + |s2|];
    IntToStringInjective(h1, h2);
  }
}
