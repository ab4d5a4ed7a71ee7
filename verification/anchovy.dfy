/** `summarizing_anchovy_detection.py`: which daily glider GPS files fall in the
    survey window, and how the rows of a glider acoustic file are cut into runs of
    anchovy detections. Each `plt.plot` call becomes an emitted segment. */
module Anchovy {
  import opened Wrappers
  import opened DateTimeParse
  import opened DateTimeOrder

  // ---------------------------------------------------------------------------
  // The survey window over the daily GPS files
  // ---------------------------------------------------------------------------

  /** A daily GPS file: the `GPS_date` column, already parsed with `%d-%b-%Y` (so each
      value is a midnight), and the `Latitude` column. */
  datatype GpsFile = GpsFile(dates: seq<DateTime>, lats: seq<real>)

  const WindowStart := DateTime(2022, 9, 23, 0, 0, 0, 0)
  const WindowEnd := DateTime(2022, 10, 6, 0, 0, 0, 0)

  /** `datetime(2022, 9, 23) <= day <= datetime(2022, 10, 6)`. */
  predicate InWindow(day: DateTime) {
    NotAfter(WindowStart, day) && NotAfter(day, WindowEnd)
  }

  function MinOf(s: seq<real>): (m: real)
    requires |s| > 0
    ensures m in s && forall i :: 0 <= i < |s| ==> m <= s[i]
  {
    if |s| == 1 then s[0]
    else
      var rest := MinOf(s[1..]);
      assert forall i :: 1 <= i < |s| ==> s[i] == s[1..][i - 1];
      if s[0] <= rest then s[0] else rest
  }

  function MaxOf(s: seq<real>): (m: real)
    requires |s| > 0
    ensures m in s && forall i :: 0 <= i < |s| ==> s[i] <= m
  {
    if |s| == 1 then s[0]
    else
      var rest := MaxOf(s[1..]);
      assert forall i :: 1 <= i < |s| ==> s[i] == s[1..][i - 1];
      if s[0] >= rest then s[0] else rest
  }

  /** The coverage line drawn for one GPS file. */
  datatype Coverage = Coverage(day: DateTime, minLat: real, maxLat: real)

  /** One GPS file: the day is the date of the middle row (`iloc[len // 2]`, an
      IndexError on an empty file); a file outside the window contributes nothing,
      one inside draws its latitude span. */
  function DayCoverage(f: GpsFile): (r: Result<Option<Coverage>, ExcClass>)
    requires |f.dates| == |f.lats|
    ensures r.Err? <==> |f.dates| == 0
    ensures r.Err? ==> r.error == IndexError
    ensures r.Ok? ==> (r.value.Some? <==> InWindow(f.dates[|f.dates| / 2]))
    ensures r.Ok? && r.value.Some? ==> (r.value.value.day == f.dates[|f.dates| / 2]
      && r.value.value.minLat in f.lats && r.value.value.maxLat in f.lats
      && forall i :: 0 <= i < |f.lats| ==> r.value.value.minLat <= f.lats[i] <= r.value.value.maxLat)
  {
    if |f.dates| == 0 then Err(IndexError)
    else
      var day := f.dates[|f.dates| / 2];
      if InWindow(day) then Ok(Some(Coverage(day, MinOf(f.lats), MaxOf(f.lats)))) else Ok(None)
  }

  /** For a valid midnight, being in the window is being a calendar day from
      23 September to 6 October 2022. */
  lemma InWindowDays(day: DateTime)
    requires Valid(day) && day.hour == 0 && day.minute == 0 && day.second == 0 && day.micro == 0
    ensures InWindow(day) <==> (day.year == 2022
      && ((day.month == 9 && 23 <= day.day) || (day.month == 10 && day.day <= 6)))
  {
    var lo, hi := Ordinal(WindowStart), Ordinal(WindowEnd);
    assert Valid(WindowStart) && Valid(WindowEnd);
    OrdinalNotAfter(WindowStart, day);
    OrdinalNotAfter(day, WindowEnd);
    DayKeyOrder(WindowStart, day);
    DayKeyOrder(day, WindowEnd);
  }

  // ---------------------------------------------------------------------------
  // Runs of anchovy detections in one acoustic file
  // ---------------------------------------------------------------------------

  /** A row of an acoustic file: the calendar day of `Time_avg_UTC` (as a day
      number), `Latitude_avg` and `Sv_lin`; NaN cells are `None`. */
  datatype Row = Row(day: int, lat: Option<real>, sv: Option<real>)

  /** `Sv_lin != 0`; NaN is not equal to zero. */
  predicate Detected(r: Row) {
    r.sv.None? || r.sv.value != 0.0
  }

  /** `Sv_lin == 0`; false for NaN. */
  predicate Silent(r: Row) {
    r.sv == Some(0.0)
  }

  /** `abs(lat_a - lat_b) < 1`; false when either is NaN. */
  predicate Near(a: Option<real>, b: Option<real>) {
    a.Some? && b.Some? && -1.0 < a.value - b.value < 1.0
  }

  /** `start_idx` and `relay_idx`. */
  datatype State = State(start: Option<nat>, relay: Option<nat>)

  /** A vertical line: the day of the run's first row and two latitudes. */
  datatype Segment = Segment(day: int, fromLat: Option<real>, toLat: Option<real>)

  /** `condition1 and condition2`: row `i` lies within one degree of latitude of the
      relay row and on the same day. Both are false before any run has opened. */
  predicate Continues(rows: seq<Row>, i: nat, relay: Option<nat>)
    requires i < |rows|
    requires relay.Some? ==> relay.value < |rows|
  {
    relay.Some? && Near(rows[i].lat, rows[relay.value].lat) && rows[i].day == rows[relay.value].day
  }

  /** Both indices point into the file, and a run is never open without a relay
      (opening sets both). */
  predicate Indexes(rows: seq<Row>, st: State) {
    (st.start.Some? ==> st.start.value < |rows| && st.relay.Some?)
    && (st.relay.Some? ==> st.relay.value < |rows|)
  }

  /** The result of processing one row. */
  datatype Step = Step(state: State, emitted: seq<Segment>)

  /** The state update of the loop body. */
  function Update(rows: seq<Row>, i: nat, st: State): (r: Step)
    requires i < |rows| && Indexes(rows, st)
    ensures Indexes(rows, r.state)
    ensures |r.emitted| <= 1
    ensures r.emitted != [] ==> (st.start.Some? && r.state.start.None? && Silent(rows[i])
      && r.emitted[0] == Segment(rows[st.start.value].day, rows[st.start.value].lat, rows[st.relay.value].lat))
  {
    var go := Continues(rows, i, st.relay);
    if Detected(rows[i]) && st.start.None? then Step(State(Some(i), Some(i)), [])
    else if Detected(rows[i]) && st.start.Some? && go then Step(State(st.start, Some(i)), [])
    else if Silent(rows[i]) && st.start.Some? && !go then
      Step(State(None, st.relay), [Segment(rows[st.start.value].day, rows[st.start.value].lat, rows[st.relay.value].lat)])
    else Step(st, [])
  }

  /** The whole loop body: the update, then the line from the run's first row to the
      file's LAST row (`iloc[-1]`) whenever a run is open. */
  function Process(rows: seq<Row>, i: nat, st: State): (r: Step)
    requires i < |rows| && Indexes(rows, st)
    ensures Indexes(rows, r.state)
    ensures r.state == Update(rows, i, st).state
    ensures r.state.start.Some? <==>
      |r.emitted| == |Update(rows, i, st).emitted| + 1
    ensures r.state.start.Some? ==> (r.emitted[|r.emitted| - 1]
      == Segment(rows[r.state.start.value].day, rows[r.state.start.value].lat, rows[|rows| - 1].lat))
  {
    var u := Update(rows, i, st);
    var trailing := if u.state.start.Some? then
        [Segment(rows[u.state.start.value].day, rows[u.state.start.value].lat, rows[|rows| - 1].lat)]
      else [];
    Step(u.state, u.emitted + trailing)
  }

  /** The loop from row `i` on. */
  function RunFrom(rows: seq<Row>, i: nat, st: State): (out: seq<Segment>)
    requires i <= |rows| && Indexes(rows, st)
    decreases |rows| - i
  {
    if i == |rows| then []
    else
      var s := Process(rows, i, st);
      s.emitted + RunFrom(rows, i + 1, s.state)
  }

  /** The segments drawn for one acoustic file. */
  function Runs(rows: seq<Row>): (out: seq<Segment>)
    ensures |out| <= 2 * |rows|
  {
    RunFromBound(rows, 0, State(None, None));
    RunFrom(rows, 0, State(None, None))
  }

  lemma {:induction false} RunFromBound(rows: seq<Row>, i: nat, st: State)
    requires i <= |rows| && Indexes(rows, st)
    ensures |RunFrom(rows, i, st)| <= 2 * (|rows| - i)
    decreases |rows| - i
  {
    if i < |rows| {
      RunFromBound(rows, i + 1, Process(rows, i, st).state);
    }
  }

  // ---------------------------------------------------------------------------
  // The transitions, one by one
  // ---------------------------------------------------------------------------

  /** A detection with no open run opens one at that row. */
  lemma Opens(rows: seq<Row>, i: nat, st: State)
    requires i < |rows| && Indexes(rows, st)
    requires Detected(rows[i]) && st.start.None?
    ensures Update(rows, i, st) == Step(State(Some(i), Some(i)), [])
  {
  }

  /** Within an open run a detection moves the relay exactly when it continues the
      run; otherwise nothing changes. */
  lemma DetectionInRun(rows: seq<Row>, i: nat, st: State)
    requires i < |rows| && Indexes(rows, st)
    requires Detected(rows[i]) && st.start.Some?
    ensures Continues(rows, i, st.relay) ==> Update(rows, i, st) == Step(State(st.start, Some(i)), [])
    ensures !Continues(rows, i, st.relay) ==> Update(rows, i, st) == Step(st, [])
  {
  }

  /** Within an open run a zero row closes it exactly when it does NOT continue the
      run, keeping the relay; a zero row that continues leaves everything unchanged. */
  lemma SilenceInRun(rows: seq<Row>, i: nat, st: State)
    requires i < |rows| && Indexes(rows, st)
    requires Silent(rows[i]) && st.start.Some?
    ensures Continues(rows, i, st.relay) ==> Update(rows, i, st) == Step(st, [])
    ensures !Continues(rows, i, st.relay) ==> (Update(rows, i, st).state == State(None, st.relay)
      && |Update(rows, i, st).emitted| == 1)
  {
  }

  /** With no open run, only a detection changes anything, and the relay left over
      from a closed run plays no part: the step is the same whatever it is. */
  lemma StaleRelayIgnored(rows: seq<Row>, i: nat, relay1: Option<nat>, relay2: Option<nat>)
    requires i < |rows| && Indexes(rows, State(None, relay1)) && Indexes(rows, State(None, relay2))
    ensures Process(rows, i, State(None, relay1)).emitted == Process(rows, i, State(None, relay2)).emitted
    ensures Process(rows, i, State(None, relay1)).state.start == Process(rows, i, State(None, relay2)).state.start
    ensures !Detected(rows[i]) ==> Process(rows, i, State(None, relay1)) == Step(State(None, relay1), [])
  {
  }

  // ---------------------------------------------------------------------------
  // What the segments mean
  // ---------------------------------------------------------------------------

  /** While a run is open, its first and relay rows are detections of the same day,
      the relay at or after the first, both before the current row. */
  predicate Invariant(rows: seq<Row>, i: nat, st: State) {
    Indexes(rows, st)
    && (st.relay.Some? ==> st.relay.value < i)
    && (st.start.Some? ==> (st.relay.Some? && st.start.value <= st.relay.value
      && Detected(rows[st.start.value]) && Detected(rows[st.relay.value])
      && rows[st.relay.value].day == rows[st.start.value].day))
  }

  lemma ProcessKeepsInvariant(rows: seq<Row>, i: nat, st: State)
    requires i < |rows| && Invariant(rows, i, st)
    ensures Invariant(rows, i + 1, Process(rows, i, st).state)
  {
  }

  /** A segment starts at a detection: its day and first latitude are those of a
      detected row. It ends either at the file's last row or at a detection of the
      same day, at or after the first one. */
  predicate Explained(rows: seq<Row>, seg: Segment) {
    exists s :: (0 <= s < |rows| && Detected(rows[s]) && seg.day == rows[s].day && seg.fromLat == rows[s].lat
      && (seg.toLat == rows[|rows| - 1].lat
          || exists e :: s <= e < |rows| && Detected(rows[e]) && rows[e].day == seg.day && seg.toLat == rows[e].lat))
  }

  lemma ProcessExplained(rows: seq<Row>, i: nat, st: State)
    requires i < |rows| && Invariant(rows, i, st)
    ensures forall k :: 0 <= k < |Process(rows, i, st).emitted| ==> Explained(rows, Process(rows, i, st).emitted[k])
  {
    var u := Update(rows, i, st);
    var p := Process(rows, i, st);
    if u.emitted != [] {
      var s, e := st.start.value, st.relay.value;
      assert Explained(rows, u.emitted[0]) by {
        assert s <= e < |rows| && Detected(rows[e]) && rows[e].day == u.emitted[0].day;
      }
    }
    if u.state.start.Some? {
      var s := u.state.start.value;
      ProcessKeepsInvariant(rows, i, st);
      assert Explained(rows, p.emitted[|p.emitted| - 1]);
    }
  }

  lemma {:induction false} RunFromExplained(rows: seq<Row>, i: nat, st: State)
    requires i <= |rows| && Invariant(rows, i, st)
    ensures forall k :: 0 <= k < |RunFrom(rows, i, st)| ==> Explained(rows, RunFrom(rows, i, st)[k])
    decreases |rows| - i
  {
    if i < |rows| {
      var p := Process(rows, i, st);
      ProcessExplained(rows, i, st);
      ProcessKeepsInvariant(rows, i, st);
      RunFromExplained(rows, i + 1, p.state);
      var out := RunFrom(rows, i, st);
      assert out == p.emitted + RunFrom(rows, i + 1, p.state);
      forall k | 0 <= k < |out|
        ensures Explained(rows, out[k])
      {
        if k < |p.emitted| {
          assert out[k] == p.emitted[k];
        } else {
          assert out[k] == RunFrom(rows, i + 1, p.state)[k - |p.emitted|];
        }
      }
    }
  }

  /** Every segment drawn for a file starts at a detected row and ends at the last
      row or at a detection of the same day. */
  lemma RunsExplained(rows: seq<Row>)
    ensures forall k :: 0 <= k < |Runs(rows)| ==> Explained(rows, Runs(rows)[k])
  {
    RunFromExplained(rows, 0, State(None, None));
  }

  /** A file without a single detection draws nothing. */
  lemma {:induction false} NoDetectionNoSegments(rows: seq<Row>, i: nat, relay: Option<nat>)
    requires i <= |rows| && Indexes(rows, State(None, relay))
    requires forall k :: 0 <= k < |rows| ==> !Detected(rows[k])
    ensures RunFrom(rows, i, State(None, relay)) == []
    decreases |rows| - i
  {
    if i < |rows| {
      NoDetectionNoSegments(rows, i + 1, relay);
    }
  }
}
