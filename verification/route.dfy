/** The desktop application’s `Route`: the waypoints, totals, turn
    instructions and transport mode of a computed route. Lists are values,
    so the defensive copies the class makes on the way in and out are built
    into the model. */
module Routes {
  import opened Numeric
  import opened Text
  import opened Locations
  import opened TransportModes

  datatype Route = Route(
    waypoints: seq<Location>,
    totalDistance: real,   // metres
    totalDuration: real,   // seconds
    instructions: seq<string>,
    transportMode: TransportMode)

  /** `new Route()` */
  function NewRoute(): (r: Route)
    ensures r.waypoints == [] && r.instructions == []
    ensures r.totalDistance == 0.0 && r.totalDuration == 0.0
    ensures r.transportMode == Driving
  {
    Route([], 0.0, 0.0, [], Driving)
  }

  /** `new Route(waypoints)` */
  function RouteOf(waypoints: seq<Location>): (r: Route)
    ensures r.waypoints == waypoints && r.instructions == []
    ensures r.totalDistance == 0.0 && r.totalDuration == 0.0
    ensures r.transportMode == Driving
  {
    NewRoute().(waypoints := waypoints)
  }

  function WaypointCount(r: Route): nat {
    |r.waypoints|
  }

  predicate IsEmpty(r: Route) {
    r.waypoints == []
  }

  lemma IsEmptyIffNoWaypoints(r: Route)
    ensures IsEmpty(r) <==> WaypointCount(r) == 0
  {
  }

  /** `addWaypoint`: appends at the end and leaves the rest alone. */
  function AddWaypoint(r: Route, l: Location): (r': Route)
    ensures WaypointCount(r') == WaypointCount(r) + 1
    ensures r'.waypoints[|r.waypoints|] == l
    ensures r'.waypoints[..|r.waypoints|] == r.waypoints
    ensures r' == r.(waypoints := r'.waypoints)
  {
    r.(waypoints := r.waypoints + [l])
  }

  function SetWaypoints(r: Route, waypoints: seq<Location>): (r': Route)
    ensures r'.waypoints == waypoints
    ensures r' == r.(waypoints := waypoints)
  {
    r.(waypoints := waypoints)
  }

  function SetInstructions(r: Route, instructions: seq<string>): (r': Route)
    ensures r'.instructions == instructions
    ensures r' == r.(instructions := instructions)
  {
    r.(instructions := instructions)
  }

  function AddInstruction(r: Route, instruction: string): (r': Route)
    ensures r'.instructions == r.instructions + [instruction]
    ensures r' == r.(instructions := r'.instructions)
  {
    r.(instructions := r.instructions + [instruction])
  }

  /** `clear()`: no waypoints, no instructions, zero totals, same mode. */
  function Clear(r: Route): (r': Route)
    ensures IsEmpty(r') && r'.instructions == []
    ensures r'.totalDistance == 0.0 && r'.totalDuration == 0.0
    ensures r'.transportMode == r.transportMode
  {
    Route([], 0.0, 0.0, [], r.transportMode)
  }

  lemma ClearIdempotent(r: Route)
    ensures Clear(Clear(r)) == Clear(r)
  {
  }

  /** A cleared route equals a new one in the same mode. */
  lemma ClearIsFresh(r: Route)
    ensures Clear(r) == NewRoute().(transportMode := r.transportMode)
  {
  }

  /** The hours and minutes `getFormattedDuration` prints:
      `(int)(d / 3600)` and `(int)((d % 3600) / 60)`. */
  function DurationParts(d: real): (hm: (int, int))
    ensures d >= 0.0 ==> hm == (d.Floor / 3600, (d.Floor % 3600) / 60)
    ensures d < 0.0 ==> hm.0 <= 0 && -60 < hm.1 <= 0
  {
    if d >= 0.0 then
      TruncDiv(d, 3600);
      TruncModDiv(d, 3600, 60);
      (Trunc(d / 3600.0), Trunc(FMod(d, 3600.0) / 60.0))
    else
      (Trunc(d / 3600.0), Trunc(FMod(d, 3600.0) / 60.0))
  }

  /** For a non-negative duration the printed hours and minutes are whole
      hours and the whole minutes left over: together they fall short of the
      duration by less than a minute. */
  lemma DurationPartsBracket(d: real)
    requires d >= 0.0
    ensures var (h, m) := DurationParts(d);
      && h >= 0 && 0 <= m < 60
      && (h * 3600 + m * 60) as real <= d < (h * 3600 + m * 60 + 60) as real
  {
    var n := d.Floor;
    assert n == 3600 * (n / 3600) + n % 3600;
    assert n % 3600 == 60 * ((n % 3600) / 60) + (n % 3600) % 60;
  }

  /** `getFormattedDuration()`: "H h M min" with hours, else "M min";
      seconds are never printed. */
  function FormattedDuration(r: Route): (s: string)
    ensures r.totalDuration >= 3600.0 ==>
      s == NatToString(r.totalDuration.Floor / 3600) + " h " + NatToString((r.totalDuration.Floor % 3600) / 60) + " min"
    ensures 0.0 <= r.totalDuration < 3600.0 ==> s == NatToString(r.totalDuration.Floor / 60) + " min"
    ensures r.totalDuration < 0.0 ==> s == IntToString(DurationParts(r.totalDuration).1) + " min"
  {
    var (h, m) := DurationParts(r.totalDuration);
    if h > 0 then IntToString(h) + " h " + IntToString(m) + " min" else IntToString(m) + " min"
  }

  /** `getFormattedDistance()`: whole metres below 1000 m, else kilometres
      with two decimals. The number reads back as the distance, to the metre
      below 1 km and to ten metres above. */
  function FormattedDistance(r: Route): (s: string)
    ensures r.totalDistance < 1000.0 ==> Labelled(s, " m", r.totalDistance, 0)
    ensures r.totalDistance >= 1000.0 ==> Labelled(s, " km", Kilometres(r.totalDistance), 2)
  {
    if r.totalDistance < 1000.0 then FixedWithUnit(r.totalDistance, 0, " m")
    else FixedWithUnit(Kilometres(r.totalDistance), 2, " km")
  }

  /** A distance in metres divided by 1000. */
  function Kilometres(meters: real): real {
    meters / 1000.0
  }
}
