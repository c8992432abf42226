/** The desktop routing client `OSRMService`: argument checks, the request
    path, and the ordered validation of a routing response. The HTTP call
    and the JSON text parser are outside the model; a response enters as a
    parsed `Json` tree. */
module OsrmClient {
  import opened Wrappers
  import opened Text
  import opened Locations
  import opened TransportModes
  import opened Routes
  import opened RouteUtils
  import opened JsonValues
  import opened Polyline

  // ---------------------------------------------------------------------
  // Argument checks

  datatype RequestError =
    | NullEndpoints
    | TooFewPoints
    | NullLocation
    | InvalidLatitude(lat: real)
    | InvalidLongitude(lon: real)

  /** `validateCoordinates`: null first, then latitude, then longitude, the
      bounds themselves allowed. */
  function ValidateCoordinates(l: Option<Location>): (r: Result<Location, RequestError>)
    ensures r.Ok? <==> IsValidLocation(l)
    ensures r.Ok? ==> r.value == l.value
    ensures l.None? ==> r == Err(NullLocation)
    ensures l.Some? && !(-90.0 <= l.value.latitude <= 90.0) ==> r == Err(InvalidLatitude(l.value.latitude))
    ensures l.Some? && -90.0 <= l.value.latitude <= 90.0 && !(-180.0 <= l.value.longitude <= 180.0) ==>
      r == Err(InvalidLongitude(l.value.longitude))
  {
    match l
    case None => Err(NullLocation)
    case Some(loc) =>
      if loc.latitude < -90.0 || loc.latitude > 90.0 then Err(InvalidLatitude(loc.latitude))
      else if loc.longitude < -180.0 || loc.longitude > 180.0 then Err(InvalidLongitude(loc.longitude))
      else Ok(loc)
  }

  /** Every point validated in list order; the first failure wins. */
  function ValidateAll(ls: seq<Option<Location>>): (r: Result<seq<Location>, RequestError>)
    ensures r.Ok? <==> forall k | 0 <= k < |ls| :: IsValidLocation(ls[k])
    ensures r.Ok? ==> |r.value| == |ls| && forall k | 0 <= k < |ls| :: ls[k] == Some(r.value[k])
  {
    if |ls| == 0 then Ok([])
    else
      match ValidateCoordinates(ls[0])
      case Err(e) => Err(e)
      case Ok(l) =>
        match ValidateAll(ls[1..])
        case Err(e) => Err(e)
        case Ok(rest) => Ok([l] + rest)
  }

  // ---------------------------------------------------------------------
  // The request path

  /** One point as "lon,lat", each with six decimals. */
  function PointText(l: Location): string {
    Fixed(l.longitude, 6) + "," + Fixed(l.latitude, 6)
  }

  function PointTexts(ls: seq<Location>): (ts: seq<string>)
    ensures |ts| == |ls|
    ensures forall k | 0 <= k < |ls| :: ts[k] == PointText(ls[k])
  {
    MapText(ls, PointText)
  }


  /** The coordinate part of the request path: the points in order,
      separated by `;`. */
  function CoordinatePath(ls: seq<Location>): string {
    Join(";", PointTexts(ls))
  }

  lemma CoordinatePathPair(o: Location, d: Location)
    ensures CoordinatePath([o, d]) == PointText(o) + ";" + PointText(d)
  {
    assert MapText([o, d], PointText) == [PointText(o), PointText(d)];
    JoinPair(";", PointText(o), PointText(d));
  }

  /** The multi-point overload’s loop: each point, then `;` unless it is
      the last. */
  method BuildCoordinatePath(ls: seq<Location>) returns (path: string)
    ensures path == CoordinatePath(ls)
  {
    path := AppendJoined(";", PointTexts(ls));
  }

  lemma PointTextHasNoSeparator(l: Location)
    ensures ';' !in PointText(l)
  {
    var t := PointText(l);
    assert forall k | 0 <= k < |t| :: t[k] != ';' by {
      forall k | 0 <= k < |t|
        ensures t[k] != ';'
      {
        var a, b := Fixed(l.longitude, 6), Fixed(l.latitude, 6);
        if k < |a| {
          assert t[k] == a[k] && IsFixedChar(a[k]);
        } else if k > |a| {
          assert t[k] == b[k - |a| - 1] && IsFixedChar(b[k - |a| - 1]);
        }
      }
    }
  }

  /** `n` points give `n - 1` separators, and splitting the path at `;`
      gives back one "lon,lat" entry per point, in order. */
  lemma CoordinatePathShape(ls: seq<Location>)
    requires |ls| >= 1
    ensures multiset(CoordinatePath(ls))[';'] == |ls| - 1
    ensures Split(CoordinatePath(ls), ';') == PointTexts(ls)
  {
    var ts := PointTexts(ls);
    forall k | 0 <= k < |ts|
      ensures ';' !in ts[k]
    {
      PointTextHasNoSeparator(ls[k]);
    }
    JoinSeparatorCount(ts, ';');
    SplitJoin(ts, ';');
  }

  /** Each entry reads back as decimals within half a millionth of a degree
      of the point’s longitude and latitude. */
  lemma PointTextValue(l: Location)
    ensures var t := PointText(l);
      var lon := Fixed(l.longitude, 6);
      var lat := Fixed(l.latitude, 6);
      && t == lon + "," + lat
      && IsDecimal(lon) && WithinHalfUnit(DecimalValue(lon), l.longitude, 6)
      && IsDecimal(lat) && WithinHalfUnit(DecimalValue(lat), l.latitude, 6)
  {
    FixedValue(l.longitude, 6);
    FixedValue(l.latitude, 6);
  }

  /** The request URL for a profile and a coordinate path. */
  function RouteUrl(base: string, mode: TransportMode, coordinates: string, query: string): string {
    base + "/" + ApiCode(mode) + "/" + coordinates + query
  }

  const FullOverview: string := "?overview=full&steps=true"
  const NoOverview: string := "?overview=false"

  /** `calculateRoute(origin, destination, mode)` up to the request: both
      ends present, each valid, then "lon,lat;lon,lat". The base URL is
      configuration. */
  function TwoPointRequest(base: string, origin: Option<Location>, destination: Option<Location>, mode: TransportMode): (r: Result<string, RequestError>)
    ensures origin.None? || destination.None? ==> r == Err(NullEndpoints)
    ensures r.Ok? <==> IsValidLocation(origin) && IsValidLocation(destination)
    ensures r.Ok? ==> r.value == RouteUrl(base, mode, CoordinatePath([origin.value, destination.value]), FullOverview)
  {
    if origin.None? || destination.None? then Err(NullEndpoints)
    else
      match ValidateCoordinates(origin)
      case Err(e) => Err(e)
      case Ok(o) =>
        match ValidateCoordinates(destination)
        case Err(e) => Err(e)
        case Ok(d) =>
          CoordinatePathPair(o, d);
          Ok(RouteUrl(base, mode, PointText(o) + ";" + PointText(d), FullOverview))
  }

  /** `calculateRoute(waypoints, mode)` up to the request: a list of at
      least two points, each valid, joined by `;`. */
  function WaypointsRequest(base: string, waypoints: Option<seq<Option<Location>>>, mode: TransportMode): (r: Result<string, RequestError>)
    ensures waypoints.None? || |waypoints.value| < 2 ==> r == Err(TooFewPoints)
    ensures r.Ok? <==> waypoints.Some? && |waypoints.value| >= 2 && forall k | 0 <= k < |waypoints.value| :: IsValidLocation(waypoints.value[k])
    ensures r.Ok? ==> r.value == RouteUrl(base, mode, CoordinatePath(Present(waypoints.value)), FullOverview)
  {
    if waypoints.None? || |waypoints.value| < 2 then Err(TooFewPoints)
    else
      match ValidateAll(waypoints.value)
      case Err(e) => Err(e)
      case Ok(ls) =>
        PresentValues(waypoints.value, ls);
        Ok(RouteUrl(base, mode, CoordinatePath(ls), FullOverview))
  }

  /** The values of a list with no null entry. */
  function Present(ls: seq<Option<Location>>): (r: seq<Location>)
    requires forall k | 0 <= k < |ls| :: ls[k].Some?
    ensures |r| == |ls|
  {
    if |ls| == 0 then [] else [ls[0].value] + Present(ls[1..])
  }

  lemma {:induction false} PresentValues(ls: seq<Option<Location>>, vs: seq<Location>)
    requires |vs| == |ls| && forall k | 0 <= k < |ls| :: ls[k] == Some(vs[k])
    ensures Present(ls) == vs
  {
    if |ls| > 0 {
      PresentValues(ls[1..], vs[1..]);
    }
  }

  /** Both overloads ask for the same URL when given the same two points. */
  lemma TwoPointAgreesWithWaypoints(base: string, o: Location, d: Location, mode: TransportMode)
    ensures TwoPointRequest(base, Some(o), Some(d), mode) == WaypointsRequest(base, Some([Some(o), Some(d)]), mode)
  {
    var ls := [Some(o), Some(d)];
    assert ls[1..] == [Some(d)];
    assert ls[1..][1..] == [];
    var two := TwoPointRequest(base, Some(o), Some(d), mode);
    var many := WaypointsRequest(base, Some(ls), mode);
    if !IsValidLocation(Some(o)) {
      assert ValidateAll(ls).Err? && ValidateAll(ls).error == ValidateCoordinates(Some(o)).error;
    } else if !IsValidLocation(Some(d)) {
      assert ValidateAll(ls).Err? && ValidateAll(ls).error == ValidateCoordinates(Some(d)).error;
    } else {
      PresentValues(ls, [o, d]);
    }
  }

  /** `calculateDistanceAndDuration` up to the request: the same checks as
      the two-point route, without the geometry. */
  function DistanceRequest(base: string, origin: Option<Location>, destination: Option<Location>, mode: TransportMode): (r: Result<string, RequestError>)
    ensures r.Ok? <==> TwoPointRequest(base, origin, destination, mode).Ok?
    ensures r.Err? ==> r == TwoPointRequest(base, origin, destination, mode)
    ensures r.Ok? ==> r.value == RouteUrl(base, mode, CoordinatePath([origin.value, destination.value]), NoOverview)
  {
    if origin.None? || destination.None? then Err(NullEndpoints)
    else
      match ValidateCoordinates(origin)
      case Err(e) => Err(e)
      case Ok(o) =>
        match ValidateCoordinates(destination)
        case Err(e) => Err(e)
        case Ok(d) =>
          CoordinatePathPair(o, d);
          Ok(RouteUrl(base, mode, PointText(o) + ";" + PointText(d), NoOverview))
  }

  // ---------------------------------------------------------------------
  // Response validation

  datatype ResponseError =
    | MissingCode
    | StatusNotOk(status: string, message: string)
    | MissingRoutes
    | NoRoutes
    | MissingDistance
    | MissingDuration
    | MissingGeometry
    | NegativeDistance(distance: real)
    | NegativeDuration(duration: real)
    | DistanceTooLarge(distance: real)
    | DurationTooLarge(duration: real)
    | EmptyGeometry
    | MalformedGeometry
    | CoordinatesOutOfRange

  /** The longest route accepted, 40 000 km in metres. */
  const MaxDistance: real := 40000000.0
  /** The longest duration accepted, 30 days in seconds. */
  const MaxDuration: real := 2592000.0

  /** Jackson’s conversions of numbers to text and text to numbers. */
  datatype Scalars = Scalars(numberText: NumberFormat, parseDouble: string -> Option<real>)

  /** The checks both parsers share up to the first route: `code` present
      and "Ok", `routes` a non-empty array. */
  function FirstRoute(root: Json, sc: Scalars): (r: Result<Json, ResponseError>)
    ensures r.Ok? <==> Has(root, "code") && AsText(root.fields["code"], sc.numberText) == "Ok"
                       && Has(root, "routes") && root.fields["routes"].JArr? && |root.fields["routes"].items| > 0
    ensures r.Ok? ==> r.value == root.fields["routes"].items[0]
    ensures !Has(root, "code") ==> r == Err(MissingCode)
  {
    if !Has(root, "code") then Err(MissingCode)
    else
      var status := AsText(root.fields["code"], sc.numberText);
      if status != "Ok" then
        var message := if Has(root, "message") then AsText(root.fields["message"], sc.numberText) else "Erro desconhecido";
        Err(StatusNotOk(status, message))
      else if !Has(root, "routes") then Err(MissingRoutes)
      else
        var routes := root.fields["routes"];
        if !routes.JArr? || |routes.items| == 0 then Err(NoRoutes)
        else Ok(routes.items[0])
  }

  /** Distance and duration non-negative and within the limits, distance
      checked first. */
  function CheckTotals(distance: real, duration: real): (r: Result<(real, real), ResponseError>)
    ensures r.Ok? <==> 0.0 <= distance <= MaxDistance && 0.0 <= duration <= MaxDuration
    ensures r.Ok? ==> r.value == (distance, duration)
  {
    if distance < 0.0 then Err(NegativeDistance(distance))
    else if duration < 0.0 then Err(NegativeDuration(duration))
    else if distance > MaxDistance then Err(DistanceTooLarge(distance))
    else if duration > MaxDuration then Err(DurationTooLarge(duration))
    else Ok((distance, duration))
  }

  predicate AllInRange(ls: seq<Location>) {
    forall k | 0 <= k < |ls| :: InRange(ls[k])
  }

  /** `parseRouteResponse`: the shared checks, then `distance`, `duration`
      and `geometry` present, the totals within limits, a non-empty
      geometry that decodes, and every decoded point in range. */
  function ParseRouteResponse(root: Json, mode: TransportMode, sc: Scalars): (r: Result<Route, ResponseError>)
    ensures FirstRoute(root, sc).Err? ==> r == Err(FirstRoute(root, sc).error)
    ensures r.Ok? ==> 0.0 <= r.value.totalDistance <= MaxDistance && 0.0 <= r.value.totalDuration <= MaxDuration
    ensures r.Ok? ==> |r.value.waypoints| > 0 && AllInRange(r.value.waypoints)
    ensures r.Ok? ==> r.value.transportMode == mode && r.value.instructions == []
  {
    var route :- FirstRoute(root, sc);
    if !Has(route, "distance") then Err(MissingDistance)
    else if !Has(route, "duration") then Err(MissingDuration)
    else if !Has(route, "geometry") then Err(MissingGeometry)
    else
      var totals :- CheckTotals(AsDouble(route.fields["distance"], sc.parseDouble), AsDouble(route.fields["duration"], sc.parseDouble));
      var geometry := AsText(route.fields["geometry"], sc.numberText);
      if |geometry| == 0 then Err(EmptyGeometry)
      else
        match Decode(geometry)
        case Err(_) => Err(MalformedGeometry)
        case Ok(points) =>
          var coordinates := ToLocations(points);
          if !AllInRange(coordinates) then Err(CoordinatesOutOfRange)
          else Ok(Route(coordinates, totals.0, totals.1, [], mode))
  }

  /** `parseDistanceAndDurationResponse`: the shared checks, `distance` and
      `duration` present, the totals within limits. */
  function ParseDistanceAndDuration(root: Json, sc: Scalars): (r: Result<(real, real), ResponseError>)
    ensures FirstRoute(root, sc).Err? ==> r == Err(FirstRoute(root, sc).error)
    ensures r.Ok? ==> 0.0 <= r.value.0 <= MaxDistance && 0.0 <= r.value.1 <= MaxDuration
    ensures r.Ok? ==> FirstRoute(root, sc).Ok? && Has(FirstRoute(root, sc).value, "distance") && Has(FirstRoute(root, sc).value, "duration")
    ensures r.Ok? ==> var route := FirstRoute(root, sc).value;
      r.value == (AsDouble(route.fields["distance"], sc.parseDouble), AsDouble(route.fields["duration"], sc.parseDouble))
  {
    var route :- FirstRoute(root, sc);
    if !Has(route, "distance") then Err(MissingDistance)
    else if !Has(route, "duration") then Err(MissingDuration)
    else CheckTotals(AsDouble(route.fields["distance"], sc.parseDouble), AsDouble(route.fields["duration"], sc.parseDouble))
  }

  /** The conditions under which a response is accepted, stated without the
      order of the checks. */
  predicate Acceptable(root: Json, sc: Scalars) {
    && root.JObj?
    && "code" in root.fields && root.fields["code"] == JStr("Ok")
    && "routes" in root.fields && root.fields["routes"].JArr? && |root.fields["routes"].items| > 0
    && var route := root.fields["routes"].items[0];
    && route.JObj?
    && "distance" in route.fields && "duration" in route.fields && "geometry" in route.fields
    && 0.0 <= AsDouble(route.fields["distance"], sc.parseDouble) <= MaxDistance
    && 0.0 <= AsDouble(route.fields["duration"], sc.parseDouble) <= MaxDuration
    && var geometry := AsText(route.fields["geometry"], sc.numberText);
    && |geometry| > 0
    && Decode(geometry).Ok?
    && AllInRange(ToLocations(Decode(geometry).value))
  }

  /** A response is accepted exactly when every condition holds; the route
      then carries the reported totals, the requested mode and the decoded
      points, and no instructions. */
  lemma ParseRouteResponseSpec(root: Json, mode: TransportMode, sc: Scalars)
    ensures ParseRouteResponse(root, mode, sc).Ok? <==> Acceptable(root, sc)
    ensures ParseRouteResponse(root, mode, sc).Ok? ==>
      var r := ParseRouteResponse(root, mode, sc).value;
      var route := root.fields["routes"].items[0];
      && r.totalDistance == AsDouble(route.fields["distance"], sc.parseDouble)
      && r.totalDuration == AsDouble(route.fields["duration"], sc.parseDouble)
      && r.transportMode == mode
      && r.instructions == []
      && r.waypoints == ToLocations(Decode(AsText(route.fields["geometry"], sc.numberText)).value)
  {
    if Has(root, "code") {
      AsTextOk(root.fields["code"], sc.numberText);
    }
  }

  /** On success the totals lie within the limits and every waypoint is a
      valid location. */
  lemma ParsedRouteBounds(root: Json, mode: TransportMode, sc: Scalars)
    requires ParseRouteResponse(root, mode, sc).Ok?
    ensures var r := ParseRouteResponse(root, mode, sc).value;
      && 0.0 <= r.totalDistance <= MaxDistance
      && 0.0 <= r.totalDuration <= MaxDuration
      && forall k | 0 <= k < |r.waypoints| :: IsValidLocation(Some(r.waypoints[k]))
  {
  }

  /** Whenever the route parser accepts a response, the distance parser
      accepts it too and reports the route’s totals. */
  lemma DistanceParserAgrees(root: Json, mode: TransportMode, sc: Scalars)
    requires ParseRouteResponse(root, mode, sc).Ok?
    ensures var r := ParseRouteResponse(root, mode, sc).value;
      ParseDistanceAndDuration(root, sc) == Ok((r.totalDistance, r.totalDuration))
  {
  }

  /** A geometry whose last group is cut off is reported, not thrown past
      the parser. */
  lemma TruncatedGeometryRejected(root: Json, mode: TransportMode, sc: Scalars, ps: seq<Point>)
    requires |ps| > 0
    requires FirstRoute(root, sc).Ok?
    requires var route := FirstRoute(root, sc).value;
      && Has(route, "distance") && Has(route, "duration") && Has(route, "geometry")
      && CheckTotals(AsDouble(route.fields["distance"], sc.parseDouble), AsDouble(route.fields["duration"], sc.parseDouble)).Ok?
      && route.fields["geometry"] == JStr(Encode(ps)[..|Encode(ps)| - 1])
    ensures ParseRouteResponse(root, mode, sc) == Err(MalformedGeometry)
  {
    DecodeTruncatedFails(ps);
    var s := Encode(ps);
    assert |s| >= 2 by {
      assert |EncodeDelta(ps[0].lat)| >= 1 && |EncodeDelta(ps[0].lng)| >= 1;
    }
  }

  /** The example’s points in degrees. */
  lemma ExampleLocations()
    ensures var ls := ToLocations(ExamplePoints);
      && |ls| == 3
      && ls[0].latitude == 38.5 && ls[0].longitude == -120.2
      && ls[1].latitude == 40.7 && ls[1].longitude == -120.95
      && ls[2].latitude == 43.252 && ls[2].longitude == -126.453
      && AllInRange(ls)
  {
    var ls := ToLocations(ExamplePoints);
    assert ls[0] == ToLocation(Point(3850000, -12020000));
    assert ls[1] == ToLocation(Point(4070000, -12095000));
    assert ls[2] == ToLocation(Point(4325200, -12645300));
  }

  const ExampleRoute: Json := JObj(map["distance" := JNum(1000.0), "duration" := JNum(300.0), "geometry" := JStr(Example)])
  const ExampleRoot: Json := JObj(map["code" := JStr("Ok"), "routes" := JArr([ExampleRoute])])

  lemma ExampleFields()
    ensures Has(ExampleRoot, "code") && ExampleRoot.fields["code"] == JStr("Ok")
    ensures Has(ExampleRoot, "routes") && ExampleRoot.fields["routes"] == JArr([ExampleRoute])
    ensures Has(ExampleRoute, "distance") && ExampleRoute.fields["distance"] == JNum(1000.0)
    ensures Has(ExampleRoute, "duration") && ExampleRoute.fields["duration"] == JNum(300.0)
    ensures Has(ExampleRoute, "geometry") && ExampleRoute.fields["geometry"] == JStr(Example)
  {
    assert "code" != "routes";
    assert "distance"[1] != "duration"[1] && "distance"[0] != "geometry"[0] && "duration"[0] != "geometry"[0];
  }

  /** The format’s published example inside an "Ok" response gives a route
      through (38.5, -120.2), (40.7, -120.95) and (43.252, -126.453). */
  lemma ExampleResponse(mode: TransportMode, sc: Scalars)
    ensures var r := ParseRouteResponse(ExampleRoot, mode, sc);
      && r.Ok?
      && r.value.waypoints == ToLocations(ExamplePoints)
      && r.value.totalDistance == 1000.0 && r.value.totalDuration == 300.0
  {
    ExampleFields();
    assert FirstRoute(ExampleRoot, sc) == Ok(ExampleRoute);
    assert AsText(ExampleRoute.fields["geometry"], sc.numberText) == Example;
    ExampleDecodes();
    ExampleLocations();
    AcceptedRoute(ExampleRoot, ExampleRoute, mode, sc, Example, ExamplePoints);
  }

  /** A response that passes every check, spelled out step by step. */
  lemma AcceptedRoute(root: Json, route: Json, mode: TransportMode, sc: Scalars, geometry: string, points: seq<Point>)
    requires FirstRoute(root, sc) == Ok(route)
    requires Has(route, "distance") && Has(route, "duration") && Has(route, "geometry")
    requires CheckTotals(AsDouble(route.fields["distance"], sc.parseDouble), AsDouble(route.fields["duration"], sc.parseDouble)).Ok?
    requires AsText(route.fields["geometry"], sc.numberText) == geometry && |geometry| > 0
    requires Decode(geometry) == Ok(points) && AllInRange(ToLocations(points))
    ensures ParseRouteResponse(root, mode, sc)
      == Ok(Route(ToLocations(points), AsDouble(route.fields["distance"], sc.parseDouble), AsDouble(route.fields["duration"], sc.parseDouble), [], mode))
  {
  }
}
