/** The buoy record of `wind_currents_quiver.py`: cleaning the raw columns
    (`load_and_clean_data`, row semantics only) and splitting speeds and directions
    into east and north components (`calculate_vector_components`). */
module Buoy {
  import opened Wrappers
  import opened Squares

  /** A cell of the tab-separated file as read: a number, or anything
      `pd.to_numeric(..., errors='coerce')` cannot convert (text, an empty cell). */
  datatype Cell = Number(v: real) | Text(s: string)

  /** The five columns kept; `timestamp` is `None` for an empty cell. */
  datatype RawRow = RawRow(timestamp: Option<string>, currentSpeedCm: Cell, currentDirection: Cell,
                           windSpeed: Cell, windDirection: Cell)

  /** A row that survives cleaning; the current speed is in m/s. */
  datatype BuoyRow = BuoyRow(timestamp: string, currentSpeed: real, currentDirection: real,
                             windSpeed: real, windDirection: real)

  /** The placeholder the buoy writes for a missing measurement. */
  const Missing: real := -9999.9

  /** `pd.to_numeric(errors='coerce')` followed by `.replace(-9999.9, np.nan)`. */
  function Numeric(c: Cell): (r: Option<real>)
    ensures r.Some? <==> c.Number? && c.v != Missing
    ensures r.Some? ==> r.value == c.v
  {
    match c
    case Text(_) => None
    case Number(v) => if v == Missing then None else Some(v)
  }

  /** A row with all five used columns present after the conversions. */
  predicate Complete(r: RawRow) {
    r.timestamp.Some? && Numeric(r.currentSpeedCm).Some? && Numeric(r.currentDirection).Some?
    && Numeric(r.windSpeed).Some? && Numeric(r.windDirection).Some?
  }

  /** The cleaned form of a complete row: the current speed divided by 100. */
  function CleanRow(r: RawRow): (b: BuoyRow)
    requires Complete(r)
    ensures b.currentSpeed * 100.0 == r.currentSpeedCm.v
    ensures b.timestamp == r.timestamp.value && b.currentDirection == r.currentDirection.v
    ensures b.windSpeed == r.windSpeed.v && b.windDirection == r.windDirection.v
  {
    BuoyRow(r.timestamp.value, Numeric(r.currentSpeedCm).value / 100.0,
            Numeric(r.currentDirection).value, Numeric(r.windSpeed).value,
            Numeric(r.windDirection).value)
  }

  /** `dropna(subset=[...])`: the complete rows, cleaned, in their original order. */
  function Clean(rows: seq<RawRow>): (r: seq<BuoyRow>)
    ensures |r| <= |rows|
  {
    if |rows| == 0 then []
    else (if Complete(rows[0]) then [CleanRow(rows[0])] else []) + Clean(rows[1..])
  }

  /** A table of complete rows loses none; a table without one keeps nothing. */
  lemma {:induction false} CleanExtremes(rows: seq<RawRow>)
    ensures (forall i :: 0 <= i < |rows| ==> Complete(rows[i])) ==> |Clean(rows)| == |rows|
    ensures (forall i :: 0 <= i < |rows| ==> !Complete(rows[i])) ==> Clean(rows) == []
  {
    if |rows| > 0 {
      CleanExtremes(rows[1..]);
      assert forall i :: 1 <= i < |rows| ==> rows[1..][i - 1] == rows[i];
    }
  }

  /** Cleaning works row by row: cleaning a concatenation is concatenating the
      cleaned parts, so no row moves past another. */
  lemma {:induction false} CleanAppend(a: seq<RawRow>, b: seq<RawRow>)
    ensures Clean(a + b) == Clean(a) + Clean(b)
  {
    if |a| == 0 {
      assert a + b == b;
    } else {
      var h := if Complete(a[0]) then [CleanRow(a[0])] else [];
      assert (a + b)[0] == a[0];
      assert (a + b)[1..] == a[1..] + b;
      CleanAppend(a[1..], b);
      assert Clean(a + b) == h + (Clean(a[1..]) + Clean(b));
      assert Clean(a) == h + Clean(a[1..]);
    }
  }

  /** The number of rows kept is the number of complete rows. */
  function CountComplete(rows: seq<RawRow>): (n: nat)
    ensures n <= |rows|
  {
    if |rows| == 0 then 0 else (if Complete(rows[0]) then 1 else 0) + CountComplete(rows[1..])
  }

  lemma {:induction false} CleanCount(rows: seq<RawRow>)
    ensures |Clean(rows)| == CountComplete(rows)
  {
    if |rows| > 0 {
      CleanCount(rows[1..]);
    }
  }

  /** Each kept row is the cleaned form of some complete input row, and the kept
      rows appear in input order: the j-th kept row comes from a row after the one
      the (j-1)-th came from. */
  lemma {:induction false} CleanFromRows(rows: seq<RawRow>, j: nat)
    requires j < |Clean(rows)|
    ensures exists i :: (0 <= i < |rows| && Complete(rows[i]) && Clean(rows)[j] == CleanRow(rows[i])
      && |Clean(rows[..i])| == j)
  {
    var tail := rows[1..];
    var head := if Complete(rows[0]) then [CleanRow(rows[0])] else [];
    assert Clean(rows) == head + Clean(tail);
    if |head| == 1 && j == 0 {
      assert rows[..0] == [];
    } else {
      var j' := j - |head|;
      CleanFromRows(tail, j');
      var i' :| 0 <= i' < |tail| && Complete(tail[i']) && Clean(tail)[j'] == CleanRow(tail[i'])
        && |Clean(tail[..i'])| == j';
      CleanPrefix(rows, i');
      assert rows[i' + 1] == tail[i'];
      assert Clean(rows)[j] == Clean(tail)[j'];
    }
  }

  /** Cleaning a prefix one row longer adds that row's cleaned form, if any, in front. */
  lemma CleanPrefix(rows: seq<RawRow>, i: nat)
    requires i < |rows| - 1
    ensures |Clean(rows[..i + 1])| == (if Complete(rows[0]) then 1 else 0) + |Clean(rows[1..][..i])|
  {
    assert rows[..i + 1] == [rows[0]] + rows[1..][..i];
    CleanAppend([rows[0]], rows[1..][..i]);
    assert |Clean([rows[0]])| == (if Complete(rows[0]) then 1 else 0);
  }

  /** A cleaned row written back to the file (speed in cm/s) is read back unchanged,
      provided no field happens to equal the placeholder. */
  function Written(b: BuoyRow): RawRow {
    RawRow(Some(b.timestamp), Number(b.currentSpeed * 100.0), Number(b.currentDirection),
           Number(b.windSpeed), Number(b.windDirection))
  }

  predicate AvoidsPlaceholder(b: BuoyRow) {
    b.currentSpeed * 100.0 != Missing && b.currentDirection != Missing
    && b.windSpeed != Missing && b.windDirection != Missing
  }

  lemma {:induction false} CleanWrittenRoundTrip(bs: seq<BuoyRow>)
    requires forall i :: 0 <= i < |bs| ==> AvoidsPlaceholder(bs[i])
    ensures Clean(seq(|bs|, i requires 0 <= i < |bs| => Written(bs[i]))) == bs
  {
    var ws := seq(|bs|, i requires 0 <= i < |bs| => Written(bs[i]));
    if |bs| > 0 {
      var rest := seq(|bs| - 1, i requires 0 <= i < |bs| - 1 => Written(bs[1..][i]));
      assert ws[1..] == rest;
      CleanWrittenRoundTrip(bs[1..]);
      assert Complete(ws[0]);
      assert CleanRow(ws[0]) == bs[0];
    }
  }

  // ---------------------------------------------------------------------------
  // calculate_vector_components
  // ---------------------------------------------------------------------------

  /** `np.sin(np.deg2rad(d))` and `np.cos(np.deg2rad(d))`, given as parameters; all
      that is used of them is that they form a unit vector. */
  ghost predicate UnitCircle(sinDeg: real -> real, cosDeg: real -> real) {
    forall d :: Sq(sinDeg(d)) + Sq(cosDeg(d)) == 1.0
  }

  datatype Vector = Vector(u: real, v: real)

  function Dot(a: Vector, b: Vector): real {
    a.u * b.u + a.v * b.v
  }

  function Norm2(a: Vector): real {
    Sq(a.u) + Sq(a.v)
  }

  /** The unit vector pointing towards compass bearing `d` (0 = north, 90 = east). */
  function Bearing(d: real, sinDeg: real -> real, cosDeg: real -> real): Vector {
    Vector(sinDeg(d), cosDeg(d))
  }

  /** The wind direction is where the wind comes from, so its vector points the
      other way: `-speed` times the bearing. */
  function WindVector(speed: real, direction: real, sinDeg: real -> real, cosDeg: real -> real): (w: Vector)
    requires UnitCircle(sinDeg, cosDeg)
    ensures Dot(w, Bearing(direction, sinDeg, cosDeg)) == -speed
    ensures Norm2(w) == Sq(speed)
  {
    var w := Vector(-speed * sinDeg(direction), -speed * cosDeg(direction));
    UnitComponents(-speed, sinDeg(direction), cosDeg(direction));
    SqNeg(speed);
    w
  }

  /** The current direction is where the water goes: `speed` times the bearing. */
  function CurrentVector(speed: real, direction: real, sinDeg: real -> real, cosDeg: real -> real): (c: Vector)
    requires UnitCircle(sinDeg, cosDeg)
    ensures Dot(c, Bearing(direction, sinDeg, cosDeg)) == speed
    ensures Norm2(c) == Sq(speed)
  {
    var c := Vector(speed * sinDeg(direction), speed * cosDeg(direction));
    UnitComponents(speed, sinDeg(direction), cosDeg(direction));
    c
  }

  /** Scaling a unit vector by `k`: its projection on the unit vector is `k` and its
      squared length `k ** 2`. */
  lemma UnitComponents(k: real, s: real, c: real)
    requires Sq(s) + Sq(c) == 1.0
    ensures (k * s) * s + (k * c) * c == k
    ensures Sq(k * s) + Sq(k * c) == Sq(k)
  {
    SqMul(k, s);
    SqMul(k, c);
    assert (k * s) * s + (k * c) * c == k * (Sq(s) + Sq(c));
  }

  /** The wind and current vectors of one row. */
  datatype Components = Components(wind: Vector, current: Vector)

  function RowComponents(b: BuoyRow, sinDeg: real -> real, cosDeg: real -> real): (c: Components)
    requires UnitCircle(sinDeg, cosDeg)
    ensures Norm2(c.wind) == Sq(b.windSpeed) && Norm2(c.current) == Sq(b.currentSpeed)
  {
    Components(WindVector(b.windSpeed, b.windDirection, sinDeg, cosDeg),
               CurrentVector(b.currentSpeed, b.currentDirection, sinDeg, cosDeg))
  }

  /** The new columns, one entry per cleaned row. */
  function VectorComponents(rows: seq<BuoyRow>, sinDeg: real -> real, cosDeg: real -> real): (r: seq<Components>)
    requires UnitCircle(sinDeg, cosDeg)
    ensures |r| == |rows|
    ensures forall i :: 0 <= i < |r| ==> r[i] == RowComponents(rows[i], sinDeg, cosDeg)
  {
    seq(|rows|, i requires 0 <= i < |rows| => RowComponents(rows[i], sinDeg, cosDeg))
  }

  /** A wind and a current with the same speed and the same recorded direction are
      drawn as opposite arrows: the components are negated and the two vectors point
      exactly against each other. */
  lemma WindOpposesCurrent(speed: real, direction: real, sinDeg: real -> real, cosDeg: real -> real)
    requires UnitCircle(sinDeg, cosDeg)
    ensures var w, c := WindVector(speed, direction, sinDeg, cosDeg), CurrentVector(speed, direction, sinDeg, cosDeg);
      w.u == -c.u && w.v == -c.v && Dot(w, c) == -Sq(speed)
  {
    var w, c := WindVector(speed, direction, sinDeg, cosDeg), CurrentVector(speed, direction, sinDeg, cosDeg);
    assert Dot(w, c) == -Norm2(c);
  }
}
