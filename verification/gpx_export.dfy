/** Route export: the GPX document (route points for the stops, a track for
    the geometry), its text, the JSON export object and the download file
    names. Downloading, the clock and JSON text are left out; the time
    stamps and the number-to-text conversion are parameters. */
module GpxExport {
  import opened Wrappers
  import opened Numeric
  import opened Text
  import opened WebTypes

  /** An `rtept`: a named stop. */
  datatype RoutePoint = RoutePoint(lat: real, lon: real, name: string)

  /** A `trkpt`. */
  datatype TrackPoint = TrackPoint(lat: real, lon: real)

  /** The content of the GPX file. */
  datatype GpxDoc = GpxDoc(name: string, desc: string, routePoints: seq<RoutePoint>, track: seq<TrackPoint>)

  // ---------------------------------------------------------------------
  // The document

  /** The stops the route section walks: the route’s own, or just the two
      ends when it has none. */
  function StopsOf(route: WebRoute, origin: Place, destination: Place): (ps: seq<Place>)
    ensures |route.waypoints| > 0 ==> ps == route.waypoints
    ensures |route.waypoints| == 0 ==> ps == [origin, destination]
  {
    if |route.waypoints| > 0 then route.waypoints else [origin, destination]
  }

  /** "Waypoint k", numbered from 1. */
  function WaypointName(k: nat): string {
    "Waypoint " + NatToString(k)
  }

  /** The stops between the ends, named in order. */
  function WaypointPoints(ps: seq<Place>): (rs: seq<RoutePoint>)
    ensures |rs| == |ps|
    ensures forall i | 0 <= i < |ps| :: rs[i] == RoutePoint(ps[i].lat, ps[i].lng, WaypointName(i + 1))
  {
    if |ps| == 0 then []
    else
      var n := |ps| - 1;
      WaypointPoints(ps[..n]) + [RoutePoint(ps[n].lat, ps[n].lng, WaypointName(n + 1))]
  }

  lemma WaypointPointsSnoc(ps: seq<Place>, i: nat)
    requires i < |ps|
    ensures WaypointPoints(ps[..i + 1]) == WaypointPoints(ps[..i]) + [RoutePoint(ps[i].lat, ps[i].lng, WaypointName(i + 1))]
  {
    assert ps[..i + 1][..i] == ps[..i];
  }

  /** The track: each `[lng, lat]` position as a point with the two
      swapped into `lat` and `lon`. */
  function TrackOf(geometry: seq<Position>): (ts: seq<TrackPoint>)
    ensures |ts| == |geometry|
    ensures forall i | 0 <= i < |geometry| :: ts[i] == TrackPoint(geometry[i].1, geometry[i].0)
  {
    seq(|geometry|, i requires 0 <= i < |geometry| => TrackPoint(geometry[i].1, geometry[i].0))
  }

  /** Extending the positions extends the track by their swapped point. */
  lemma TrackOfSnoc(geometry: seq<Position>, j: nat)
    requires j < |geometry|
    ensures TrackOf(geometry[..j + 1]) == TrackOf(geometry[..j]) + [TrackPoint(geometry[j].1, geometry[j].0)]
  {
  }

  /** The metadata description: kilometres to two places and whole
      minutes. */
  function Desc(route: WebRoute): string {
    DescText(Kilometres(route.totalDistance), Minutes(route.totalDuration))
  }

  function DescText(km: string, minutes: int): string {
    "Distance: " + km + " km, Duration: " + IntToString(minutes) + " min"
  }

  /** `(distance / 1000).toFixed(2)`: a decimal that reads back as the
      kilometres within 0.005. */
  function Kilometres(metres: real): (km: string)
    ensures IsDecimal(km) && WithinHalfUnit(DecimalValue(km), metres / 1000.0, 2)
  {
    FixedValue(metres / 1000.0, 2);
    Fixed(metres / 1000.0, 2)
  }

  /** `Math.round(duration / 60)`: the whole number of minutes nearest to
      the duration, halves rounding up. */
  function Minutes(seconds: real): (m: int)
    ensures m as real - 0.5 <= seconds / 60.0 < m as real + 0.5
  {
    Round(seconds / 60.0)
  }

  /** The route section: the origin, the numbered interior stops, the
      destination. */
  function RoutePointsOf(route: WebRoute, origin: Place, destination: Place): seq<RoutePoint> {
    [RoutePoint(origin.lat, origin.lng, "Origin")] + WaypointPoints(Interior(StopsOf(route, origin, destination)))
      + [RoutePoint(destination.lat, destination.lng, "Destination")]
  }

  function Doc(route: WebRoute, origin: Place, destination: Place): GpxDoc {
    GpxDoc("Route " + ModeValue(route.transportMode), Desc(route),
           RoutePointsOf(route, origin, destination), TrackOf(route.geometry))
  }

  /** The route section has the origin, one numbered point per interior
      stop, then the destination: 2 + max(0, n - 2) points for n stops, and
      exactly 2 when the route has no stops of its own. */
  lemma RoutePointsShape(route: WebRoute, origin: Place, destination: Place)
    ensures var rp := RoutePointsOf(route, origin, destination);
      var n := |route.waypoints|;
      && |rp| == 2 + (if n > 2 then n - 2 else 0)
      && rp[0] == RoutePoint(origin.lat, origin.lng, "Origin")
      && rp[|rp| - 1] == RoutePoint(destination.lat, destination.lng, "Destination")
      && (forall k | 1 <= k < |rp| - 1 ::
            rp[k] == RoutePoint(route.waypoints[k].lat, route.waypoints[k].lng, WaypointName(k)))
  {
  }

  /** The number in a point’s name is its position among the interior
      stops. */
  lemma WaypointNameNumber(k: nat)
    ensures |WaypointName(k)| > 9 && WaypointName(k)[..9] == "Waypoint "
    ensures DigitsValue(WaypointName(k)[9..]) == k
  {
    NatToStringValue(k);
    assert WaypointName(k)[9..] == NatToString(k);
  }

  // ---------------------------------------------------------------------
  // The text

  const Declaration: string := "<?xml version=\"1.0\" encoding=\"UTF-8\"?>\n"
  /** The root element’s opening up to its version. */
  const GpxRoot: string := "<gpx version=\"1.1\""

  function Head(d: GpxDoc): string {
    Declaration + GpxRoot + HeadRest(d)
  }

  /** The rest of the root tag, the metadata and the route’s name. */
  function HeadRest(d: GpxDoc): string {
    " creator=\"Map Route Explorer\">\n  <metadata>\n    <name>" + d.name + "</name>\n    <desc>" + d.desc
      + "</desc>\n  </metadata>\n  <rte>\n    <name>Route</name>"
  }

  function RoutePointText(p: RoutePoint, num: NumberFormat): string {
    "\n    <rtept lat=\"" + num(p.lat) + "\" lon=\"" + num(p.lon) + "\">\n      <name>" + p.name
      + "</name>\n    </rtept>"
  }

  const TrackOpen: string := "\n  </rte>\n  <trk>\n    <name>Route Track</name>\n    <trkseg>"

  function TrackPointText(t: TrackPoint, num: NumberFormat): string {
    "\n      <trkpt lat=\"" + num(t.lat) + "\" lon=\"" + num(t.lon) + "\"></trkpt>"
  }

  const Tail: string := "\n    </trkseg>\n  </trk>\n</gpx>"

  /** The texts of a list of items, one per item. */
  function MapTexts<T>(xs: seq<T>, f: T -> string): (ts: seq<string>)
    ensures |ts| == |xs| && forall i | 0 <= i < |xs| :: ts[i] == f(xs[i])
  {
    seq(|xs|, i requires 0 <= i < |xs| => f(xs[i]))
  }

  /** One more item’s text after the texts of the items so far. */
  lemma MapTextsSnoc<T>(xs: seq<T>, x: T, f: T -> string)
    ensures Concat(MapTexts(xs + [x], f)) == Concat(MapTexts(xs, f)) + f(x)
  {
    assert MapTexts(xs + [x], f) == MapTexts(xs, f) + [f(x)];
    ConcatSnoc(MapTexts(xs, f), f(x));
  }

  function RouteTextOf(num: NumberFormat): RoutePoint -> string {
    p => RoutePointText(p, num)
  }

  function TrackTextOf(num: NumberFormat): TrackPoint -> string {
    t => TrackPointText(t, num)
  }

  /** The `rtept` texts, one per point. */
  function RoutePointTexts(ps: seq<RoutePoint>, num: NumberFormat): seq<string> {
    MapTexts(ps, RouteTextOf(num))
  }

  /** The `trkpt` texts, one per point. */
  function TrackPointTexts(ts: seq<TrackPoint>, num: NumberFormat): seq<string> {
    MapTexts(ts, TrackTextOf(num))
  }

  /** The file opens with the XML declaration and a GPX 1.1 root and
      closes the track, the track segment and the root. */
  function Render(d: GpxDoc, num: NumberFormat): (r: string)
    ensures StartsWith(r, Declaration + GpxRoot)
    ensures |r| >= |Tail| && r[|r| - |Tail|..] == Tail
  {
    var routeText, trackText := Concat(RoutePointTexts(d.routePoints, num)), Concat(TrackPointTexts(d.track, num));
    var body := Head(d) + routeText + TrackOpen + trackText;
    HeadOpens(d, routeText + TrackOpen + trackText + Tail);
    assert Head(d) + (routeText + TrackOpen + trackText + Tail) == body + Tail;
    assert (body + Tail)[|body + Tail| - |Tail|..] == Tail;
    body + Tail
  }

  /** Whatever follows the header, the text opens with the declaration and
      the root. */
  lemma HeadOpens(d: GpxDoc, rest: string)
    ensures StartsWith(Head(d) + rest, Declaration + GpxRoot)
  {
    var p := Declaration + GpxRoot;
    assert StartsWith(p, p) by {
      assert p[..|p|] == p;
    }
    StartsWithAppend(p, HeadRest(d), p);
    StartsWithAppend(Head(d), rest, p);
  }

  /** A text that follows a fixed label can be cut back out of it. */
  lemma AfterLabel(tag: string, x: string, rest: string)
    ensures var s := tag + x + rest;
      |s| >= |tag| + |x| && s[..|tag|] == tag && s[|tag|..|tag| + |x|] == x
  {
    var s := tag + x + rest;
    assert s[..|tag|] == tag;
    assert s[|tag|..|tag| + |x|] == x;
  }

  /** The distance is the text right after "Distance: ". */
  lemma DescTextDistance(km: string, minutes: int)
    ensures var desc := DescText(km, minutes);
      |desc| >= 10 + |km| && desc[..10] == "Distance: " && desc[10..10 + |km|] == km
  {
    AfterLabel("Distance: ", km, " km, Duration: " + IntToString(minutes) + " min");
  }

  /** One more route point’s text after the texts of the points so far. */
  lemma RoutePointStep(gpx: string, head: string, done: seq<RoutePoint>, p: RoutePoint, num: NumberFormat)
    requires gpx == head + Concat(RoutePointTexts(done, num))
    ensures gpx + RoutePointText(p, num) == head + Concat(RoutePointTexts(done + [p], num))
  {
    MapTextsSnoc(done, p, RouteTextOf(num));
  }

  /** One more track point’s text after the texts of the points so far. */
  lemma TrackPointStep(gpx: string, head: string, done: seq<TrackPoint>, t: TrackPoint, num: NumberFormat)
    requires gpx == head + Concat(TrackPointTexts(done, num))
    ensures gpx + TrackPointText(t, num) == head + Concat(TrackPointTexts(done + [t], num))
  {
    MapTextsSnoc(done, t, TrackTextOf(num));
  }

  /** The pieces of a rendered document, in order. */
  lemma RenderPieces(d: GpxDoc, num: NumberFormat, body: string, gpx: string)
    requires body == Head(d) + Concat(RoutePointTexts(d.routePoints, num))
    requires gpx == body + TrackOpen + Concat(TrackPointTexts(d.track, num))
    ensures gpx + Tail == Render(d, num)
  {
  }

  /** One turn of the loop over the interior stops. */
  lemma InteriorStep(text: string, prefix: seq<RoutePoint>, interior: seq<Place>, i: nat, num: NumberFormat)
    requires i < |interior|
    requires text == Concat(RoutePointTexts(prefix + WaypointPoints(interior[..i]), num))
    ensures text + RoutePointText(RoutePoint(interior[i].lat, interior[i].lng, WaypointName(i + 1)), num)
      == Concat(RoutePointTexts(prefix + WaypointPoints(interior[..i + 1]), num))
  {
    var point := RoutePoint(interior[i].lat, interior[i].lng, WaypointName(i + 1));
    var done := prefix + WaypointPoints(interior[..i]);
    RoutePointStep(text, "", done, point, num);
    WaypointPointsSnoc(interior, i);
    assert done + [point] == prefix + WaypointPoints(interior[..i + 1]);
  }

  /** The `forEach` over the interior stops: one numbered point each,
      after the points already written. */
  method AppendInterior(prefix: seq<RoutePoint>, start: string, interior: seq<Place>, num: NumberFormat)
    returns (text: string)
    requires start == Concat(RoutePointTexts(prefix, num))
    ensures text == Concat(RoutePointTexts(prefix + WaypointPoints(interior), num))
  {
    text := start;
    var i := 0;
    assert prefix + WaypointPoints(interior[..0]) == prefix;
    while i < |interior|
      invariant 0 <= i <= |interior|
      invariant text == Concat(RoutePointTexts(prefix + WaypointPoints(interior[..i]), num))
    {
      InteriorStep(text, prefix, interior, i, num);
      text := text + RoutePointText(RoutePoint(interior[i].lat, interior[i].lng, WaypointName(i + 1)), num);
      i := i + 1;
    }
    assert interior[..i] == interior;
  }

  /** The route section: the origin’s point, the interior stops’ points and
      the destination’s point, appended in that order. */
  method BuildRouteSection(route: WebRoute, origin: Place, destination: Place, num: NumberFormat)
    returns (text: string)
    ensures text == Concat(RoutePointTexts(RoutePointsOf(route, origin, destination), num))
  {
    var originPoint := RoutePoint(origin.lat, origin.lng, "Origin");
    assert "" == "" + Concat(RoutePointTexts([], num));
    RoutePointStep("", "", [], originPoint, num);
    assert [] + [originPoint] == [originPoint];
    var interior := Interior(StopsOf(route, origin, destination));
    text := AppendInterior([originPoint], RoutePointText(originPoint, num), interior, num);
    var destinationPoint := RoutePoint(destination.lat, destination.lng, "Destination");
    RoutePointStep(text, "", [originPoint] + WaypointPoints(interior), destinationPoint, num);
    text := text + RoutePointText(destinationPoint, num);
  }

  /** The `forEach` over the geometry, swapping `[lng, lat]`. */
  method BuildTrackSection(geometry: seq<Position>, num: NumberFormat) returns (text: string)
    ensures text == Concat(TrackPointTexts(TrackOf(geometry), num))
  {
    text := "";
    var track: seq<TrackPoint> := [];
    assert text == "" + Concat(TrackPointTexts(track, num));
    var j := 0;
    while j < |geometry|
      invariant 0 <= j <= |geometry|
      invariant track == TrackOf(geometry[..j])
      invariant text == Concat(TrackPointTexts(track, num))
    {
      var point := TrackPoint(geometry[j].1, geometry[j].0);
      TrackOfSnoc(geometry, j);
      TrackPointStep(text, "", track, point, num);
      text := text + TrackPointText(point, num);
      track := track + [point];
      j := j + 1;
    }
    assert geometry[..j] == geometry;
  }

  /** `exportRouteToGPX` up to the download: the header, the route section,
      the track section and the closing tags, appended in that order. */
  method BuildGpx(route: WebRoute, origin: Place, destination: Place, num: NumberFormat) returns (gpx: string)
    ensures gpx == Render(Doc(route, origin, destination), num)
  {
    var d := Doc(route, origin, destination);
    var routeSection := BuildRouteSection(route, origin, destination, num);
    var trackSection := BuildTrackSection(route.geometry, num);
    gpx := Head(d) + routeSection;
    gpx := gpx + TrackOpen + trackSection;
    RenderPieces(d, num, Head(d) + routeSection, gpx);
    gpx := gpx + Tail;
  }

  // ---------------------------------------------------------------------
  // File names

  /** `route-<mode>-<Date.now()>.<ext>`: it splits at `-` into "route",
      the mode and the stamp with its extension, and ends in the
      extension. */
  function FileName(m: WebMode, now: nat, ext: string): (s: string)
    ensures '-' !in ext ==> Split(s, '-') == ["route", ModeValue(m), NatToString(now) + "." + ext]
    ensures |s| > |ext| && s[|s| - |ext| - 1..] == "." + ext
  {
    var front := "route-" + ModeValue(m) + "-" + NatToString(now);
    var s := front + "." + ext;
    Suffix(front, "." + ext);
    assert s == front + ("." + ext);
    if '-' !in ext then FileNameFields(m, now, ext); s else s
  }

  /** What follows a text can be cut back off its end. */
  lemma Suffix(front: string, back: string)
    ensures (front + back)[|front + back| - |back|..] == back
  {
  }

  lemma ModeValueHasNoDash(m: WebMode)
    ensures '-' !in ModeValue(m)
  {
  }

  /** A time stamp is digits only. */
  lemma StampHasNoDash(now: nat)
    ensures '-' !in NatToString(now)
  {
    var stamp := NatToString(now);
    forall k | 0 <= k < |stamp| ensures stamp[k] != '-' {
      assert IsDigit(stamp[k]);
    }
  }

  /** A file name is its three fields joined with `-`. */
  lemma FileNameJoin(m: WebMode, now: nat, ext: string)
    ensures "route-" + ModeValue(m) + "-" + NatToString(now) + "." + ext
      == Join("-", ["route", ModeValue(m), NatToString(now) + "." + ext])
  {
    var parts := ["route", ModeValue(m), NatToString(now) + "." + ext];
    assert parts[1..] == [ModeValue(m), NatToString(now) + "." + ext];
    JoinPair("-", ModeValue(m), NatToString(now) + "." + ext);
  }

  lemma FileNameFields(m: WebMode, now: nat, ext: string)
    requires '-' !in ext
    ensures Split("route-" + ModeValue(m) + "-" + NatToString(now) + "." + ext, '-')
      == ["route", ModeValue(m), NatToString(now) + "." + ext]
  {
    var parts := ["route", ModeValue(m), NatToString(now) + "." + ext];
    ModeValueHasNoDash(m);
    StampHasNoDash(now);
    assert NoneContains(parts, '-');
    FileNameJoin(m, now, ext);
    SplitJoin(parts, '-');
  }

  // ---------------------------------------------------------------------
  // The JSON export object

  /** The `route` member: the route’s six fields. */
  datatype ExportedRoute = ExportedRoute(
    waypoints: seq<Place>,
    totalDistance: real,
    totalDuration: real,
    transportMode: WebMode,
    geometry: seq<Position>,
    instructions: Option<seq<string>>)

  /** The object passed to `JSON.stringify`; `exportedAt` is the ISO time
      stamp. */
  datatype ExportData = ExportData(origin: Place, destination: Place, route: ExportedRoute, exportedAt: string)

  /** The export keeps the whole route: reading it back gives the route
      that was exported. */
  function ExportJson(route: WebRoute, origin: Place, destination: Place, exportedAt: string): (e: ExportData)
    ensures e.origin == origin && e.destination == destination && e.exportedAt == exportedAt
    ensures RouteOf(e.route) == route
  {
    ExportData(origin, destination,
      ExportedRoute(route.waypoints, route.totalDistance, route.totalDuration, route.transportMode,
                    route.geometry, route.instructions),
      exportedAt)
  }

  /** Reading a route back from the export object. */
  function RouteOf(e: ExportedRoute): WebRoute {
    WebRoute(e.waypoints, e.totalDistance, e.totalDuration, e.transportMode, e.geometry, e.instructions)
  }
}
