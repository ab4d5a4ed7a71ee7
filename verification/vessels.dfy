/** The vessel classes (`Vessel`, `Vessel_echo`, `Vessel_fishing`): what their
    constructors store and the orientation marker they choose; the shifted
    longitudes and middle timestamp `Vessel_echo.plot_transect` draws with; and
    `get_closest_point_on_edge`. Drawing is left out. */
module Vessels {
  import opened Wrappers
  import opened Squares

  /** The marker of a track: `'^'` when its first latitude is strictly below its
      last, `'v'` otherwise (a flat or single-point track included). */
  function Orientation(lats: seq<real>): (c: char)
    requires |lats| > 0
    ensures c == '^' || c == 'v'
    ensures c == '^' <==> lats[0] < lats[|lats| - 1]
  {
    if lats[0] < lats[|lats| - 1] then '^' else 'v'
  }

  /** Reversing a track that is not flat flips its marker. */
  lemma OrientationReverses(lats: seq<real>)
    requires |lats| > 0 && lats[0] != lats[|lats| - 1]
    ensures var rev := seq(|lats|, i requires 0 <= i < |lats| => lats[|lats| - 1 - i]);
      Orientation(rev) != Orientation(lats)
  {
  }

  /** A `Vessel` or `Vessel_echo` object: the three lists as given and the marker. */
  datatype Vessel<T> = Vessel(lons: seq<real>, lats: seq<real>, time: seq<T>, orientation: char)

  /** `Vessel(longitudes, latitudes, time_stamps)` and `Vessel_echo(...)`: an empty
      latitude list fails at `lats[0]` with IndexError. */
  function NewVessel<T>(lons: seq<real>, lats: seq<real>, time: seq<T>): (r: Result<Vessel<T>, ExcClass>)
    ensures r.Err? <==> |lats| == 0
    ensures r.Err? ==> r.error == IndexError
    ensures r.Ok? ==> (r.value.lons == lons && r.value.lats == lats && r.value.time == time
      && (r.value.orientation == '^' <==> lats[0] < lats[|lats| - 1])
      && (r.value.orientation == 'v' <==> lats[0] >= lats[|lats| - 1]))
  {
    if |lats| == 0 then Err(IndexError) else Ok(Vessel(lons, lats, time, Orientation(lats)))
  }

  /** `[lon + lon_shift for lon in self.lons]`. */
  function Shifted(lons: seq<real>, shift: real): (r: seq<real>)
    ensures |r| == |lons|
    ensures forall i :: 0 <= i < |r| ==> r[i] - lons[i] == shift
  {
    seq(|lons|, i requires 0 <= i < |lons| => lons[i] + shift)
  }

  /** Shifting back undoes a shift, and two shifts add up. */
  lemma ShiftedComposes(lons: seq<real>, a: real, b: real)
    ensures Shifted(Shifted(lons, a), b) == Shifted(lons, a + b)
    ensures Shifted(Shifted(lons, a), -a) == lons
  {
    assert Shifted(lons, 0.0) == lons;
  }

  /** The label timestamp `time[len(time) // 2]`: as many stamps before it as after,
      or one more before when the count is even. An empty list raises IndexError. */
  function LabelTime<T>(time: seq<T>): (r: Result<T, ExcClass>)
    ensures r.Err? <==> |time| == 0
    ensures r.Err? ==> r.error == IndexError
    ensures r.Ok? ==> exists k :: (0 <= k < |time| && r.value == time[k]
      && (k == |time| - 1 - k || k == |time| - k))
  {
    if |time| == 0 then Err(IndexError)
    else
      var k := |time| / 2;
      assert k == |time| - 1 - k || k == |time| - k;
      Ok(time[k])
  }

  /** A `Vessel_fishing` object. */
  datatype FishingVessel<T, S, C> = FishingVessel(
    colors: seq<C>, lons: seq<real>, lats: seq<real>, time: T, species: seq<S>,
    massFished: seq<Option<real>>, orientation: char)

  /** `-x` on a coordinate that may be `None`: negating `None` is a TypeError. */
  function Negate(x: Option<real>): (r: Result<real, ExcClass>)
    ensures r.Ok? <==> x.Some?
    ensures r.Ok? ==> r.value + x.value == 0.0
    ensures r.Err? ==> r.error == TypeError
  {
    if x.None? then Err(TypeError) else Ok(-x.value)
  }

  /** `Vessel_fishing(loc_i, loc_f, time_stamp, species, mass_fished, colors)`.
      The statements run in order: the negated longitudes (IndexError for a short
      location list, TypeError for a `None` longitude), the latitudes (IndexError),
      then the comparison of the latitudes (TypeError if either is `None`). */
  function NewFishingVessel<T, S, C>(locI: seq<Option<real>>, locF: seq<Option<real>>, time: T,
                                     species: seq<S>, mass: seq<Option<real>>, colors: seq<C>):
    (r: Result<FishingVessel<T, S, C>, ExcClass>)
    ensures r.Ok? <==> |locI| >= 2 && |locF| >= 2 && locI[0].Some? && locI[1].Some?
                       && locF[0].Some? && locF[1].Some?
    ensures r.Ok? ==> (r.value.lons == [-locI[0].value, -locF[0].value]
      && r.value.lats == [locI[1].value, locF[1].value]
      && r.value.time == time && r.value.species == species && r.value.massFished == mass
      && r.value.colors == colors
      && (r.value.orientation == '^' <==> locI[1].value < locF[1].value))
    ensures |locI| == 0 ==> r == Err(IndexError)
  {
    if |locI| == 0 then Err(IndexError)
    else match Negate(locI[0])
    case Err(e) => Err(e)
    case Ok(lonI) =>
      if |locF| == 0 then Err(IndexError)
      else match Negate(locF[0])
      case Err(e) => Err(e)
      case Ok(lonF) =>
        if |locI| < 2 || |locF| < 2 then Err(IndexError)
        else if locI[1].None? || locF[1].None? then Err(TypeError)
        else
          var lats := [locI[1].value, locF[1].value];
          Ok(FishingVessel(colors, [lonI, lonF], lats, time, species, mass, Orientation(lats)))
  }

  /** A haul record with a missing coordinate cannot be drawn: the constructor raises
      TypeError. */
  lemma FishingVesselNeedsCoordinates<T, S, C>(locI: seq<Option<real>>, locF: seq<Option<real>>, time: T,
                                               species: seq<S>, mass: seq<Option<real>>, colors: seq<C>)
    requires |locI| == 2 && |locF| == 2
    requires locI[0].None? || locI[1].None? || locF[0].None? || locF[1].None?
    ensures NewFishingVessel(locI, locF, time, species, mass, colors) == Err(TypeError)
  {
  }

  /** Negating the stored longitudes gives back the haul's longitudes. */
  lemma FishingLonsRoundTrip<T, S, C>(locI: seq<Option<real>>, locF: seq<Option<real>>, time: T,
                                      species: seq<S>, mass: seq<Option<real>>, colors: seq<C>)
    requires NewFishingVessel(locI, locF, time, species, mass, colors).Ok?
    ensures var v := NewFishingVessel(locI, locF, time, species, mass, colors).value;
      [Some(-v.lons[0]), Some(v.lats[0])] == locI[..2] && [Some(-v.lons[1]), Some(v.lats[1])] == locF[..2]
  {
  }

  // ---------------------------------------------------------------------------
  // get_closest_point_on_edge
  // ---------------------------------------------------------------------------

  datatype Point = Point(x: real, y: real)

  /** What is assumed of the square root passed in. */
  ghost predicate IsSqrt(sqrt: real -> real) {
    forall a :: a >= 0.0 ==> sqrt(a) >= 0.0 && Sq(sqrt(a)) == a
  }

  /** The squared Euclidean distance. */
  function SqDist(p: Point, q: Point): real {
    Sq(p.x - q.x) + Sq(p.y - q.y)
  }

  /** `q` lies on the ray from `c` through `p`: the offsets are parallel (zero cross
      product) and point the same way (positive dot product). */
  predicate OnRay(q: Point, c: Point, p: Point) {
    (q.x - c.x) * (p.y - c.y) == (q.y - c.y) * (p.x - c.x)
    && (q.x - c.x) * (p.x - c.x) + (q.y - c.y) * (p.y - c.y) > 0.0
  }

  /** `center + radius * (point - center) / norm(point - center)`. When the point is
      the centre the norm is zero and numpy's division gives NaN: `None`. */
  function ClosestPointOnEdge(point: Point, center: Point, radius: real, sqrt: real -> real): (r: Option<Point>)
    requires IsSqrt(sqrt)
    ensures r.None? <==> point == center
    ensures r.Some? ==> SqDist(r.value, center) == Sq(radius)
    ensures r.Some? && radius > 0.0 ==> OnRay(r.value, center, point)
  {
    var vx, vy := point.x - center.x, point.y - center.y;
    var n := sqrt(Sq(vx) + Sq(vy));
    SquaresZero(vx, vy);
    SqNonNeg(n);
    if n == 0.0 then
      None
    else
      var q := Point(center.x + radius * (vx / n), center.y + radius * (vy / n));
      Scaled(vx, vy, n, radius);
      Some(q)
  }

  /** A sum of two squares is zero only for the zero vector. */
  lemma SquaresZero(vx: real, vy: real)
    ensures Sq(vx) + Sq(vy) >= 0.0
    ensures Sq(vx) + Sq(vy) == 0.0 <==> vx == 0.0 && vy == 0.0
  {
    SqNonNeg(vx);
    SqNonNeg(vy);
  }

  /** Scaling a nonzero vector `v` with norm `n` by `radius / n` gives length
      `|radius|`, along `v` when `radius` is positive. */
  lemma Scaled(vx: real, vy: real, n: real, radius: real)
    requires n > 0.0
    requires Sq(n) == Sq(vx) + Sq(vy)
    ensures var ox, oy := radius * (vx / n), radius * (vy / n);
      Sq(ox) + Sq(oy) == Sq(radius)
      && ox * vy == oy * vx
      && (radius > 0.0 ==> ox * vx + oy * vy > 0.0)
  {
    var k := radius / n;
    var ox, oy := k * vx, k * vy;
    assert radius * (vx / n) == ox && radius * (vy / n) == oy;
    SqMul(k, vx);
    SqMul(k, vy);
    SqMul(k, n);
    assert k * n == radius;
    assert ox * vx + oy * vy == k * Sq(n);
    if radius > 0.0 {
      assert k * Sq(n) == radius * n;
      assert radius * n > 0.0;
    }
  }

  /** A point already on the circle is returned unchanged, so the projection is
      idempotent. */
  lemma ClosestPointIdempotent(point: Point, center: Point, radius: real, sqrt: real -> real)
    requires IsSqrt(sqrt) && radius > 0.0 && point != center
    ensures var q := ClosestPointOnEdge(point, center, radius, sqrt).value;
      ClosestPointOnEdge(q, center, radius, sqrt) == Some(q)
  {
    var q := ClosestPointOnEdge(point, center, radius, sqrt).value;
    var vx, vy := q.x - center.x, q.y - center.y;
    assert Sq(vx) + Sq(vy) == Sq(radius);
    SqrtOfSquare(radius, sqrt);
    assert sqrt(Sq(vx) + Sq(vy)) == radius;
    assert radius * (vx / radius) == vx && radius * (vy / radius) == vy;
    assert Point(center.x + radius * (vx / radius), center.y + radius * (vy / radius)) == q;
    var r := ClosestPointOnEdge(q, center, radius, sqrt);
    assert r.Some?;
    assert r.value == q;
  }

  /** The square root of a square is the nonnegative base. */
  lemma SqrtOfSquare(a: real, sqrt: real -> real)
    requires IsSqrt(sqrt) && a >= 0.0
    ensures sqrt(Sq(a)) == a
  {
    SqNonNeg(a);
    var s := sqrt(Sq(a));
    assert (s - a) * (s + a) == Sq(s) - Sq(a);
    if s + a != 0.0 {
      assert s - a == ((s - a) * (s + a)) / (s + a);
    }
  }
}
