/** `RouteUtils`: validation, totals, time estimates, formatting, point
    thinning and the centroid of a list of locations. A Java `null` list or
    route is `None`. */
module RouteUtils {
  import opened Wrappers
  import opened Numeric
  import opened Text
  import opened Locations
  import opened TransportModes
  import opened Routes

  // ---------------------------------------------------------------------
  // Validation

  predicate InRange(l: Location) {
    -90.0 <= l.latitude <= 90.0 && -180.0 <= l.longitude <= 180.0
  }

  /** `isValidLocation`: non-null, latitude in [-90, 90], longitude in
      [-180, 180], bounds included. */
  function IsValidLocation(l: Option<Location>): (b: bool)
    ensures b <==> l.Some? && InRange(l.value)
  {
    match l
    case None => false
    case Some(loc) =>
      loc.latitude >= -90.0 && loc.latitude <= 90.0 && loc.longitude >= -180.0 && loc.longitude <= 180.0
  }

  /** `isValidRoute`: a non-null list of at least two points, each one
      non-null and in range. */
  method IsValidRoute(waypoints: Option<seq<Option<Location>>>) returns (b: bool)
    ensures b <==> waypoints.Some? && |waypoints.value| >= 2
                   && forall i | 0 <= i < |waypoints.value| :: IsValidLocation(waypoints.value[i])
    ensures b ==> AllPresent(waypoints.value)
  {
    if waypoints.None? || |waypoints.value| < 2 {
      return false;
    }
    var ws := waypoints.value;
    var i := 0;
    while i < |ws|
      invariant 0 <= i <= |ws|
      invariant forall k | 0 <= k < i :: IsValidLocation(ws[k])
    {
      var ok := IsValidLocation(ws[i]);
      if !ok {
        return false;
      }
      i := i + 1;
    }
    return true;
  }

  // ---------------------------------------------------------------------
  // Null elements

  /** The exception a dereference of a null list element throws. */
  datatype NullPointer = NullPointerException

  /** No element of the list is null. */
  predicate AllPresent(ls: seq<Option<Location>>) {
    forall i | 0 <= i < |ls| :: ls[i].Some?
  }

  /** The elements of a list without nulls. */
  function Values(ls: seq<Option<Location>>): (vs: seq<Location>)
    requires AllPresent(ls)
    ensures |vs| == |ls| && forall i | 0 <= i < |ls| :: ls[i] == Some(vs[i])
  {
    if |ls| == 0 then [] else Values(ls[..|ls| - 1]) + [ls[|ls| - 1].value]
  }

  /** A list of locations as a list that holds no null. */
  function Lift(ls: seq<Location>): (os: seq<Option<Location>>)
    ensures AllPresent(os) && Values(os) == ls
  {
    var os := seq(|ls|, i requires 0 <= i < |ls| => Some(ls[i]));
    assert Values(os) == ls by { ValuesOf(os, ls); }
    os
  }

  lemma ValuesOf(os: seq<Option<Location>>, ls: seq<Location>)
    requires |os| == |ls| && forall i | 0 <= i < |ls| :: os[i] == Some(ls[i])
    ensures AllPresent(os) && Values(os) == ls
  {
    var vs := Values(os);
    forall i | 0 <= i < |ls| ensures vs[i] == ls[i] {
      assert os[i] == Some(vs[i]);
    }
  }

  /** A prefix whose elements are all present holds no null. */
  lemma PrefixPresent(ls: seq<Option<Location>>, j: nat)
    requires j <= |ls| && forall k | 0 <= k < j :: ls[k].Some?
    ensures AllPresent(ls[..j])
  {
    forall k | 0 <= k < j ensures ls[..j][k].Some? {
      assert ls[..j][k] == ls[k];
    }
  }

  /** The values of a prefix one element longer gain that element. */
  lemma ValuesSnoc(ls: seq<Option<Location>>, i: nat)
    requires i < |ls| && AllPresent(ls[..i + 1])
    ensures AllPresent(ls[..i]) && Values(ls[..i + 1]) == Values(ls[..i]) + [ls[i].value]
  {
    assert ls[..i + 1][..i] == ls[..i];
  }

  // ---------------------------------------------------------------------
  // Total distance

  /** The length in metres of the path through `ws`: `distanceTo` is in
      kilometres, each leg is scaled by 1000. */
  function PathLength(ws: seq<Location>, dist: Distance): real
    decreases |ws|
  {
    if |ws| < 2 then 0.0 else dist(ws[0], ws[1]) * 1000.0 + PathLength(ws[1..], dist)
  }

  lemma {:induction false} PathLengthNonNegative(ws: seq<Location>, dist: Distance)
    ensures PathLength(ws, dist) >= 0.0
    decreases |ws|
  {
    if |ws| >= 2 {
      PathLengthNonNegative(ws[1..], dist);
      assert dist(ws[0], ws[1]) >= 0.0;
    }
  }

  /** Extending a path by one point adds the last leg. */
  lemma {:induction false} PathLengthSnoc(ws: seq<Location>, l: Location, dist: Distance)
    requires |ws| >= 1
    ensures PathLength(ws + [l], dist) == PathLength(ws, dist) + dist(ws[|ws| - 1], l) * 1000.0
    decreases |ws|
  {
    if |ws| >= 2 {
      assert (ws + [l])[1..] == ws[1..] + [l];
      PathLengthSnoc(ws[1..], l, dist);
    } else {
      assert ws + [l] == [ws[0], l];
    }
  }

  /** The length of a path is the length up to any point plus the length
      from it. */
  lemma {:induction false} PathLengthSplit(ws: seq<Location>, k: nat, dist: Distance)
    requires k < |ws|
    ensures PathLength(ws, dist) == PathLength(ws[..k + 1], dist) + PathLength(ws[k..], dist)
    decreases k
  {
    if k > 0 {
      PathLengthSplit(ws[1..], k - 1, dist);
      assert ws[1..][..k] == ws[1..k + 1];
      assert ws[1..][k - 1..] == ws[k..];
      assert ws[..k + 1][1..] == ws[1..k + 1];
    } else {
      assert ws[..1] == [ws[0]];
    }
  }

  /** `calculateTotalDistance`: 0 for null or fewer than two points, else
      the sum of the legs in metres; a null point among two or more throws
      when its leg is measured. */
  method CalculateTotalDistance(waypoints: Option<seq<Option<Location>>>, dist: Distance)
    returns (r: Result<real, NullPointer>)
    ensures waypoints.None? || |waypoints.value| < 2 ==> r == Ok(0.0)
    ensures waypoints.Some? && |waypoints.value| >= 2 ==> (r.Err? <==> !AllPresent(waypoints.value))
    ensures waypoints.Some? && AllPresent(waypoints.value) ==> r == Ok(PathLength(Values(waypoints.value), dist))
    ensures r.Ok? ==> r.value >= 0.0
  {
    if waypoints.None? || |waypoints.value| < 2 {
      if waypoints.Some? && AllPresent(waypoints.value) {
        assert |Values(waypoints.value)| < 2;
      }
      return Ok(0.0);
    }
    var ws := waypoints.value;
    if ws[0].None? {
      return Err(NullPointerException);
    }
    assert ws[..1] == [ws[0]];
    var total := 0.0;
    var i := 0;
    while i < |ws| - 1
      invariant 0 <= i <= |ws| - 1
      invariant forall k | 0 <= k <= i :: ws[k].Some?
      invariant AllPresent(ws[..i + 1])
      invariant total == PathLength(Values(ws[..i + 1]), dist)
    {
      var current, next := ws[i], ws[i + 1];
      if next.None? {
        assert !AllPresent(ws) by { assert ws[i + 1].None?; }
        return Err(NullPointerException);
      }
      PrefixPresent(ws, i + 2);
      ValuesSnoc(ws, i + 1);
      assert Values(ws[..i + 1])[i] == current.value;
      PathLengthSnoc(Values(ws[..i + 1]), next.value, dist);
      total := total + dist(current.value, next.value) * 1000.0;
      i := i + 1;
    }
    assert ws[..|ws|] == ws;
    PathLengthNonNegative(Values(ws), dist);
    return Ok(total);
  }

  // ---------------------------------------------------------------------
  // Travel time

  /** `estimateTravelTime`: seconds to cover `distance` metres at the
      mode’s average speed; 0 for a non-positive distance or a null mode. */
  function EstimateTravelTime(distance: real, mode: Option<TransportMode>): (t: real)
    ensures distance <= 0.0 || mode.None? ==> t == 0.0
    ensures distance > 0.0 && mode.Some? ==> t > 0.0 && t * AverageSpeed(mode.value) == distance * 3.6
  {
    if distance <= 0.0 || mode.None? then 0.0
    else
      var km := distance * 0.001;
      var speed := AverageSpeed(mode.value);
      var t := km / speed * 3600.0;
      assert t * speed == km * 3600.0;
      t
  }

  /** A longer distance never takes less time. */
  lemma EstimateMonotone(d1: real, d2: real, mode: TransportMode)
    requires 0.0 < d1 <= d2
    ensures EstimateTravelTime(d1, Some(mode)) <= EstimateTravelTime(d2, Some(mode))
  {
    var v := AverageSpeed(mode);
    var t1, t2 := EstimateTravelTime(d1, Some(mode)), EstimateTravelTime(d2, Some(mode));
    if t1 > t2 {
      MulMonotone(v, t2, t1);
    }
  }

  // ---------------------------------------------------------------------
  // Formatting

  /** `formatDistance`: whole metres below 1000, else kilometres to two
      places. */
  function FormatDistance(meters: real): (s: string)
    ensures meters < 1000.0 ==> Labelled(s, " m", meters, 0)
    ensures meters >= 1000.0 ==> Labelled(s, " km", Kilometres(meters), 2)
  {
    if meters < 1000.0 then FixedWithUnit(meters, 0, " m")
    else FixedWithUnit(MetersToKilometers(meters), 2, " km")
  }

  /** `formatDistance` prints exactly what `Route.getFormattedDistance`
      prints for a route of that length. */
  lemma FormatDistanceAgreesWithRoute(r: Route)
    ensures FormatDistance(r.totalDistance) == FormattedDistance(r)
  {
    if r.totalDistance >= 1000.0 {
      assert MetersToKilometers(r.totalDistance) == Kilometres(r.totalDistance);
    }
  }

  /** `metersToKilometers`: multiplication by `METERS_TO_KM`, 0.001. */
  function MetersToKilometers(meters: real): (km: real)
    ensures km == Kilometres(meters)
  {
    meters * 0.001
  }

  /** `(int)(d / 3600)`, `(int)((d % 3600) / 60)` and `(int)(d % 60)`. */
  function ClockParts(d: real): (hms: (int, int, int))
    ensures d >= 0.0 ==> hms == (d.Floor / 3600, (d.Floor % 3600) / 60, d.Floor % 60)
  {
    if d >= 0.0 then
      TruncDiv(d, 3600);
      TruncModDiv(d, 3600, 60);
      TruncMod(d, 60);
      (Trunc(d / 3600.0), Trunc(FMod(d, 3600.0) / 60.0), Trunc(FMod(d, 60.0)))
    else
      (Trunc(d / 3600.0), Trunc(FMod(d, 3600.0) / 60.0), Trunc(FMod(d, 60.0)))
  }

  /** For a non-negative duration the three parts are a mixed-radix
      decomposition of the whole seconds. */
  lemma ClockPartsRecompose(d: real)
    requires d >= 0.0
    ensures var (h, m, s) := ClockParts(d);
      && h >= 0 && 0 <= m < 60 && 0 <= s < 60
      && h * 3600 + m * 60 + s == d.Floor
  {
    var n := d.Floor;
    assert n == 3600 * (n / 3600) + n % 3600;
    assert n % 3600 == 60 * ((n % 3600) / 60) + (n % 3600) % 60;
    assert (n % 3600) % 60 == n % 60 by {
      assert n % 60 == (3600 * (n / 3600) + n % 3600) % 60;
    }
  }

  /** `formatDuration`: "H h M min" from one hour, "M min S s" from one
      minute, else "S s". */
  function FormatDuration(d: real): (text: string)
    ensures d >= 3600.0 ==>
      text == NatToString(d.Floor / 3600) + " h " + NatToString((d.Floor % 3600) / 60) + " min"
    ensures 60.0 <= d < 3600.0 ==> text == NatToString(d.Floor / 60) + " min " + NatToString(d.Floor % 60) + " s"
    ensures 0.0 <= d < 60.0 ==> text == NatToString(d.Floor) + " s"
  {
    var (h, m, s) := ClockParts(d);
    if h > 0 then IntToString(h) + " h " + IntToString(m) + " min"
    else if m > 0 then IntToString(m) + " min " + IntToString(s) + " s"
    else IntToString(s) + " s"
  }

  // ---------------------------------------------------------------------
  // Point thinning

  /** The interior indices (1 .. |ws|-2) the scan keeps, starting after
      index `i - 1` with `last` the index of the point kept most recently:
      a point is kept when it lies at least `minDistance` metres from that
      point. */
  function ThinFrom(ws: seq<Location>, last: nat, i: nat, minDistance: real, dist: Distance): seq<nat>
    requires last < i
    requires last < |ws|
    decreases |ws| - i
  {
    if i + 1 >= |ws| then []
    else if dist(ws[last], ws[i]) * 1000.0 >= minDistance then [i] + ThinFrom(ws, i, i + 1, minDistance, dist)
    else ThinFrom(ws, last, i + 1, minDistance, dist)
  }

  /** The indices `optimizeRoute` keeps: the first, the interior points the
      scan keeps, and the last when there are at least two. */
  function KeptIndices(ws: seq<Location>, minDistance: real, dist: Distance): seq<nat>
    requires |ws| >= 1
  {
    [0] + ThinFrom(ws, 0, 1, minDistance, dist) + (if |ws| > 1 then [|ws| - 1] else [])
  }

  function Select(ws: seq<Location>, idx: seq<nat>): (r: seq<Location>)
    requires forall k | 0 <= k < |idx| :: idx[k] < |ws|
    ensures |r| == |idx|
    ensures forall k | 0 <= k < |idx| :: r[k] == ws[idx[k]]
  {
    if |idx| == 0 then [] else [ws[idx[0]]] + Select(ws, idx[1..])
  }

  predicate StrictlyIncreasing(idx: seq<nat>) {
    forall a, b | 0 <= a < b < |idx| :: idx[a] < idx[b]
  }

  lemma {:induction false} ThinFromRange(ws: seq<Location>, last: nat, i: nat, minDistance: real, dist: Distance)
    requires last < i && last < |ws|
    ensures var t := ThinFrom(ws, last, i, minDistance, dist);
      && StrictlyIncreasing(t)
      && forall k | 0 <= k < |t| :: i <= t[k] < |ws| - 1
    decreases |ws| - i
  {
    if i + 1 < |ws| {
      ThinFromRange(ws, i, i + 1, minDistance, dist);
      ThinFromRange(ws, last, i + 1, minDistance, dist);
    }
  }

  /** The kept indices are strictly increasing, begin at the first point and
      end at the last: the result is a subsequence with both endpoints. */
  lemma KeptIndicesShape(ws: seq<Location>, minDistance: real, dist: Distance)
    requires |ws| >= 1
    ensures var k := KeptIndices(ws, minDistance, dist);
      && StrictlyIncreasing(k)
      && (forall j | 0 <= j < |k| :: k[j] < |ws|)
      && k[0] == 0
      && k[|k| - 1] == |ws| - 1
  {
    ThinFromRange(ws, 0, 1, minDistance, dist);
  }

  /** Consecutive interior points the scan keeps are at least `minDistance`
      apart, and every point it passes over lies closer than `minDistance`
      to the point kept before it: the scan keeps a point exactly when it is
      far enough from the last kept one. */
  lemma {:induction false} ThinFromKeepIff(ws: seq<Location>, last: nat, i: nat, minDistance: real, dist: Distance, j: nat)
    requires last < i <= j < |ws| - 1
    requires forall k | i <= k < j :: k !in ThinFrom(ws, last, i, minDistance, dist)
    ensures j in ThinFrom(ws, last, i, minDistance, dist) <==> dist(ws[last], ws[j]) * 1000.0 >= minDistance
    decreases j - i
  {
    if j > i {
      var keepI := dist(ws[last], ws[i]) * 1000.0 >= minDistance;
      assert i !in ThinFrom(ws, last, i, minDistance, dist);
      assert !keepI;
      assert ThinFrom(ws, last, i, minDistance, dist) == ThinFrom(ws, last, i + 1, minDistance, dist);
      ThinFromKeepIff(ws, last, i + 1, minDistance, dist, j);
    } else {
      ThinFromRange(ws, i, i + 1, minDistance, dist);
      ThinFromRange(ws, last, i + 1, minDistance, dist);
    }
  }

  // ---------------------------------------------------------------------
  // optimizeRoute

  /** The waypoints `optimizeRoute` returns for a non-empty list. */
  function OptimizedWaypoints(ws: seq<Location>, minDistance: real, dist: Distance): seq<Location>
    requires |ws| >= 1
  {
    KeptIndicesShape(ws, minDistance, dist);
    Select(ws, KeptIndices(ws, minDistance, dist))
  }

  /** `optimizeRoute`: null or empty gives a new Route; otherwise the thinned
      waypoints, the original mode, their path length and the estimated
      time. */
  method OptimizeRoute(original: Option<Route>, minDistance: real, dist: Distance) returns (r: Route)
    ensures original.None? || IsEmpty(original.value) ==> r == NewRoute()
    ensures original.Some? && !IsEmpty(original.value) ==>
      && r.waypoints == OptimizedWaypoints(original.value.waypoints, minDistance, dist)
      && r.transportMode == original.value.transportMode
      && r.totalDistance == PathLength(r.waypoints, dist)
      && r.totalDuration == EstimateTravelTime(r.totalDistance, Some(r.transportMode))
      && r.instructions == []
  {
    if original.None? || IsEmpty(original.value) {
      return NewRoute();
    }
    var ws := original.value.waypoints;
    var optimized: seq<Location> := [ws[0]];
    var lastAdded := ws[0];
    ghost var lastIndex: nat := 0;
    ghost var kept: seq<nat> := [0];
    var i := 1;
    while i < |ws| - 1
      invariant 1 <= i <= if |ws| > 1 then |ws| - 1 else 1
      invariant lastIndex < i && lastAdded == ws[lastIndex]
      invariant forall k | 0 <= k < |kept| :: kept[k] < |ws|
      invariant optimized == Select(ws, kept)
      invariant kept + ThinFrom(ws, lastIndex, i, minDistance, dist) == [0] + ThinFrom(ws, 0, 1, minDistance, dist)
    {
      var current := ws[i];
      if dist(lastAdded, current) * 1000.0 >= minDistance {
        assert ThinFrom(ws, lastIndex, i, minDistance, dist) == [i] + ThinFrom(ws, i, i + 1, minDistance, dist);
        optimized := optimized + [current];
        kept := kept + [i];
        lastAdded := current;
        lastIndex := i;
      } else {
        assert ThinFrom(ws, lastIndex, i, minDistance, dist) == ThinFrom(ws, lastIndex, i + 1, minDistance, dist);
      }
      i := i + 1;
    }
    assert ThinFrom(ws, lastIndex, i, minDistance, dist) == [];
    if |ws| > 1 {
      optimized := optimized + [ws[|ws| - 1]];
      kept := kept + [|ws| - 1];
    }
    assert kept == KeptIndices(ws, minDistance, dist);
    var measured := CalculateTotalDistance(Some(Lift(optimized)), dist);
    var total := measured.value;
    var mode := original.value.transportMode;
    r := Route(optimized, total, EstimateTravelTime(total, Some(mode)), [], mode);
  }

  // ---------------------------------------------------------------------
  // Centroid

  function SumLatitudes(ls: seq<Location>): real {
    if |ls| == 0 then 0.0 else SumLatitudes(ls[..|ls| - 1]) + ls[|ls| - 1].latitude
  }

  function SumLongitudes(ls: seq<Location>): real {
    if |ls| == 0 then 0.0 else SumLongitudes(ls[..|ls| - 1]) + ls[|ls| - 1].longitude
  }

  /** `calculateCentroid`: (0, 0) for null or empty, else the component-wise
      mean, with empty name and address; a null element throws. */
  method CalculateCentroid(locations: Option<seq<Option<Location>>>) returns (r: Result<Location, NullPointer>)
    ensures locations.None? || |locations.value| == 0 ==> r == Ok(At(0.0, 0.0))
    ensures locations.Some? ==> (r.Err? <==> !AllPresent(locations.value))
    ensures locations.Some? && |locations.value| > 0 && AllPresent(locations.value) ==>
      var ls := Values(locations.value);
      r == Ok(At(SumLatitudes(ls) / |ls| as real, SumLongitudes(ls) / |ls| as real))
  {
    if locations.None? || |locations.value| == 0 {
      return Ok(At(0.0, 0.0));
    }
    var ls := locations.value;
    var totalLat, totalLon := 0.0, 0.0;
    var i := 0;
    while i < |ls|
      invariant 0 <= i <= |ls|
      invariant forall k | 0 <= k < i :: ls[k].Some?
      invariant AllPresent(ls[..i])
      invariant totalLat == SumLatitudes(Values(ls[..i]))
      invariant totalLon == SumLongitudes(Values(ls[..i]))
    {
      if ls[i].None? {
        return Err(NullPointerException);
      }
      PrefixPresent(ls, i + 1);
      ValuesSnoc(ls, i);
      assert Values(ls[..i + 1])[..i] == Values(ls[..i]);
      totalLat := totalLat + ls[i].value.latitude;
      totalLon := totalLon + ls[i].value.longitude;
      i := i + 1;
    }
    assert ls[..|ls|] == ls;
    return Ok(At(totalLat / |ls| as real, totalLon / |ls| as real));
  }

  /** The sum of `n` latitudes in [lo, hi] lies in [n*lo, n*hi]. */
  lemma {:induction false} SumLatitudesBounds(ls: seq<Location>, lo: real, hi: real)
    requires forall k | 0 <= k < |ls| :: lo <= ls[k].latitude <= hi
    ensures |ls| as real * lo <= SumLatitudes(ls) <= |ls| as real * hi
  {
    if |ls| > 0 {
      SumLatitudesBounds(ls[..|ls| - 1], lo, hi);
    }
  }

  lemma {:induction false} SumLongitudesBounds(ls: seq<Location>, lo: real, hi: real)
    requires forall k | 0 <= k < |ls| :: lo <= ls[k].longitude <= hi
    ensures |ls| as real * lo <= SumLongitudes(ls) <= |ls| as real * hi
  {
    if |ls| > 0 {
      SumLongitudesBounds(ls[..|ls| - 1], lo, hi);
    }
  }

  /** The centroid lies inside every box that holds all the points. */
  lemma CentroidInsideBox(ls: seq<Location>, south: real, north: real, west: real, east: real)
    requires |ls| > 0
    requires forall k | 0 <= k < |ls| :: south <= ls[k].latitude <= north && west <= ls[k].longitude <= east
    ensures south <= SumLatitudes(ls) / |ls| as real <= north
    ensures west <= SumLongitudes(ls) / |ls| as real <= east
  {
    LatitudeMeanBounds(ls, south, north);
    LongitudeMeanBounds(ls, west, east);
  }

  lemma LatitudeMeanBounds(ls: seq<Location>, lo: real, hi: real)
    requires |ls| > 0
    requires forall k | 0 <= k < |ls| :: lo <= ls[k].latitude <= hi
    ensures lo <= SumLatitudes(ls) / |ls| as real <= hi
  {
    SumLatitudesBounds(ls, lo, hi);
    DivideBounds(SumLatitudes(ls), |ls| as real, lo, hi);
  }

  lemma LongitudeMeanBounds(ls: seq<Location>, lo: real, hi: real)
    requires |ls| > 0
    requires forall k | 0 <= k < |ls| :: lo <= ls[k].longitude <= hi
    ensures lo <= SumLongitudes(ls) / |ls| as real <= hi
  {
    SumLongitudesBounds(ls, lo, hi);
    DivideBounds(SumLongitudes(ls), |ls| as real, lo, hi);
  }

  lemma DivideBounds(s: real, n: real, lo: real, hi: real)
    requires n > 0.0 && n * lo <= s <= n * hi
    ensures lo <= s / n <= hi
  {
    assert s / n * n == s;
    if s / n < lo {
      MulMonotone(n, s / n, lo);
    }
    if s / n > hi {
      MulMonotone(n, hi, s / n);
    }
  }
}
