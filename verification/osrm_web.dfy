/** The web client’s OSRM fallback: the routing profile per mode, the
    request path, and the assembly of a `Route` from the first route of a
    response. HTTP is left out; the response is a typed tree. */
module OsrmWeb {
  import opened Wrappers
  import opened Text
  import opened WebTypes
  import opened WebRouteUtils

  /** `getProfile`: OSRM has no transit profile, so Transit routes as
      driving. */
  function Profile(m: WebMode): (p: string)
    ensures m != Transit ==> p == ModeValue(m)
    ensures m == Transit ==> p == ModeValue(Driving)
  {
    match m
    case Driving => "driving"
    case Bicycling => "cycling"
    case Walking => "walking"
    case Transit => "driving"
  }

  /** Every mode gets one of OSRM’s three profiles, and only Transit is
      sent under another mode’s profile. */
  lemma ProfileCases(m: WebMode)
    ensures Profile(m) in {"driving", "cycling", "walking"}
    ensures Profile(m) == ModeValue(m) <==> m != Transit
  {
    if m == Transit {
      ModeValueInjective(Transit, Driving);
    }
  }

  /** "lng,lat", with JavaScript’s default number text. */
  function PositionText(p: Place, numberText: NumberFormat): string {
    numberText(p.lng) + "," + numberText(p.lat)
  }

  /** `${origin.lng},${origin.lat};${destination.lng},${destination.lat}` */
  function CoordinatesText(o: Place, d: Place, numberText: NumberFormat): string {
    Join(";", [PositionText(o, numberText), PositionText(d, numberText)])
  }

  /** `/${profile}/${coordinates}` */
  function RequestPath(m: WebMode, o: Place, d: Place, numberText: NumberFormat): (path: string)
    ensures |path| > |Profile(m)| + 2
    ensures path[..|Profile(m)| + 2] == "/" + Profile(m) + "/"
  {
    var coords := CoordinatesText(o, d, numberText);
    JoinPair(";", PositionText(o, numberText), PositionText(d, numberText));
    "/" + Profile(m) + "/" + coords
  }

  lemma PositionTextFields(p: Place, numberText: NumberFormat)
    ensures ';' !in PositionText(p, numberText)
    ensures Split(PositionText(p, numberText), ',') == [numberText(p.lng), numberText(p.lat)]
  {
    var a, b := numberText(p.lng), numberText(p.lat);
    NumeralHasNo(a, ';');
    NumeralHasNo(b, ';');
    NumeralHasNo(a, ',');
    NumeralHasNo(b, ',');
    JoinPair(",", a, b);
    SplitJoin([a, b], ',');
  }

  /** The path after the profile splits at `;` into origin and destination,
      and each of those at `,` into longitude then latitude. */
  lemma RequestPathFields(m: WebMode, o: Place, d: Place, numberText: NumberFormat)
    ensures var path := RequestPath(m, o, d, numberText);
      var parts := Split(path[|Profile(m)| + 2..], ';');
      && |parts| == 2
      && Split(parts[0], ',') == [numberText(o.lng), numberText(o.lat)]
      && Split(parts[1], ',') == [numberText(d.lng), numberText(d.lat)]
  {
    var path := RequestPath(m, o, d, numberText);
    var coords := CoordinatesText(o, d, numberText);
    assert path[|Profile(m)| + 2..] == coords;
    PositionTextFields(o, numberText);
    PositionTextFields(d, numberText);
    SplitJoin([PositionText(o, numberText), PositionText(d, numberText)], ';');
  }

  // ---------------------------------------------------------------------
  // Response

  /** A step; `instruction` is `maneuver?.instruction`. */
  datatype OsrmStep = OsrmStep(instruction: Option<string>)

  datatype OsrmLeg = OsrmLeg(steps: seq<OsrmStep>)

  /** A route with its GeoJSON coordinates, `[lng, lat]`. */
  datatype OsrmRoute = OsrmRoute(
    distance: real,
    duration: real,
    coordinates: seq<Position>,
    legs: seq<OsrmLeg>)

  datatype OsrmResponse = OsrmResponse(code: string, routes: Option<seq<OsrmRoute>>)

  /** `if (step.maneuver?.instruction)`: present and non-empty. */
  predicate HasInstruction(s: OsrmStep) {
    s.instruction.Some? && s.instruction.value != ""
  }

  /** The instructions of one leg’s steps, in order. */
  function StepInstructions(steps: seq<OsrmStep>): (r: seq<string>)
    ensures |r| <= |steps|
    ensures forall k | 0 <= k < |r| :: r[k] != ""
  {
    if |steps| == 0 then []
    else
      var last := steps[|steps| - 1];
      StepInstructions(steps[..|steps| - 1]) + (if HasInstruction(last) then [last.instruction.value] else [])
  }

  /** The instructions of every leg, leg by leg. */
  function Instructions(legs: seq<OsrmLeg>): (r: seq<string>)
    ensures |r| <= |AllSteps(legs)|
    ensures forall k | 0 <= k < |r| :: r[k] != ""
  {
    if |legs| == 0 then []
    else
      var init, last := legs[..|legs| - 1], legs[|legs| - 1];
      assert legs == init + [last];
      AllStepsSnoc(init, last);
      Instructions(init) + StepInstructions(last.steps)
  }

  /** Every step of every leg, in order. */
  function AllSteps(legs: seq<OsrmLeg>): seq<OsrmStep> {
    if |legs| == 0 then [] else legs[0].steps + AllSteps(legs[1..])
  }

  /** The steps that carry an instruction, in order. */
  function Kept(steps: seq<OsrmStep>): seq<OsrmStep> {
    if |steps| == 0 then []
    else (if HasInstruction(steps[0]) then [steps[0]] else []) + Kept(steps[1..])
  }

  /** Their texts. */
  function Texts(steps: seq<OsrmStep>): (r: seq<string>)
    ensures |r| == |steps|
    ensures forall i | 0 <= i < |r| :: steps[i].instruction == Some(r[i]) || steps[i].instruction.None?
  {
    if |steps| == 0 then [] else [steps[0].instruction.GetOr("")] + Texts(steps[1..])
  }

  lemma {:induction false} KeptAppend(a: seq<OsrmStep>, b: seq<OsrmStep>)
    ensures Kept(a + b) == Kept(a) + Kept(b)
  {
    if |a| > 0 {
      assert (a + b)[1..] == a[1..] + b;
      KeptAppend(a[1..], b);
    } else {
      assert a + b == b;
    }
  }

  lemma {:induction false} TextsAppend(a: seq<OsrmStep>, b: seq<OsrmStep>)
    ensures Texts(a + b) == Texts(a) + Texts(b)
  {
    if |a| > 0 {
      assert (a + b)[1..] == a[1..] + b;
      TextsAppend(a[1..], b);
    } else {
      assert a + b == b;
    }
  }

  lemma {:induction false} AllStepsSnoc(legs: seq<OsrmLeg>, l: OsrmLeg)
    ensures AllSteps(legs + [l]) == AllSteps(legs) + l.steps
  {
    if |legs| == 0 {
      assert legs + [l] == [l];
      assert AllSteps([l]) == l.steps + AllSteps([]);
    } else {
      assert (legs + [l])[1..] == legs[1..] + [l];
      AllStepsSnoc(legs[1..], l);
    }
  }

  lemma {:induction false} StepInstructionsAreKept(steps: seq<OsrmStep>)
    ensures StepInstructions(steps) == Texts(Kept(steps))
  {
    if |steps| > 0 {
      var init, last := steps[..|steps| - 1], steps[|steps| - 1];
      assert steps == init + [last];
      StepInstructionsAreKept(init);
      KeptAppend(init, [last]);
      assert Kept([last]) == (if HasInstruction(last) then [last] else []) + Kept([]);
      TextsAppend(Kept(init), Kept([last]));
    }
  }

  /** The nested forEach collects exactly the present instructions of all
      steps of all legs, in leg-then-step order. */
  lemma {:induction false} InstructionsFlatten(legs: seq<OsrmLeg>)
    ensures Instructions(legs) == Texts(Kept(AllSteps(legs)))
  {
    if |legs| > 0 {
      var init, last := legs[..|legs| - 1], legs[|legs| - 1];
      assert legs == init + [last];
      InstructionsFlatten(init);
      StepInstructionsAreKept(last.steps);
      AllStepsSnoc(init, last);
      KeptAppend(AllSteps(init), last.steps);
      TextsAppend(Kept(AllSteps(init)), Kept(last.steps));
    }
  }

  /** The source’s loops: for each leg, for each step, push the instruction
      when there is one. */
  method CollectInstructions(legs: seq<OsrmLeg>) returns (r: seq<string>)
    ensures r == Instructions(legs)
    ensures forall k | 0 <= k < |r| :: r[k] != ""
  {
    r := [];
    var i := 0;
    while i < |legs|
      invariant 0 <= i <= |legs|
      invariant r == Instructions(legs[..i])
    {
      var steps := legs[i].steps;
      var j := 0;
      var acc := r;
      while j < |steps|
        invariant 0 <= j <= |steps|
        invariant r == acc + StepInstructions(steps[..j])
      {
        assert steps[..j + 1][..j] == steps[..j];
        if HasInstruction(steps[j]) {
          r := r + [steps[j].instruction.value];
        }
        j := j + 1;
      }
      assert steps[..j] == steps;
      assert legs[..i + 1][..i] == legs[..i];
      i := i + 1;
    }
    assert legs[..i] == legs;
  }

  /** `({ lat, lng })` from a `[lng, lat]` position. */
  function PlaceOf(p: Position): (l: Place)
    ensures l.lat == p.1 && l.lng == p.0
  {
    PlaceAt(p.1, p.0)
  }

  function PlacesOf(ps: seq<Position>): (ls: seq<Place>)
    ensures |ls| == |ps|
    ensures forall i | 0 <= i < |ps| :: ls[i] == PlaceOf(ps[i])
  {
    if |ps| == 0 then [] else [PlaceOf(ps[0])] + PlacesOf(ps[1..])
  }

  /** `parseRouteResponse`: "No route found" unless the code is "Ok" and
      there is a route; otherwise the first route, framed by the requested
      endpoints, with its distance, adjusted duration, geometry and the
      present instructions. */
  function ParseRouteResponse(data: OsrmResponse, m: WebMode, origin: Place, destination: Place): (r: Result<WebRoute, string>)
    ensures r.Err? <==> data.code != "Ok" || data.routes.None? || |data.routes.value| == 0
    ensures r.Err? ==> r.error == "No route found"
    ensures r.Ok? ==>
      var rd := data.routes.value[0];
      var n := |rd.coordinates|;
      var w := r.value.waypoints;
      && |w| == 2 + (if n > 2 then n - 2 else 0)
      && w[0] == origin && w[|w| - 1] == destination
      && (forall i | 0 < i < |w| - 1 :: w[i].lat == rd.coordinates[i].1 && w[i].lng == rd.coordinates[i].0)
      && r.value.totalDistance == rd.distance
      && r.value.totalDuration == AdjustDuration(rd.duration, rd.distance, m)
      && r.value.transportMode == m
      && r.value.geometry == rd.coordinates
      && r.value.instructions == Some(Instructions(rd.legs))
  {
    if data.code != "Ok" || data.routes.None? || |data.routes.value| == 0 then
      Err("No route found")
    else
      var rd := data.routes.value[0];
      var coordinates := PlacesOf(rd.coordinates);
      Ok(WebRoute(
        [origin] + Interior(coordinates) + [destination],
        rd.distance,
        AdjustDuration(rd.duration, rd.distance, m),
        m,
        rd.coordinates,
        Some(Instructions(rd.legs))))
  }

  /** An accepted route’s duration is the estimate-bounded one: within
      [0.7c, 2c] of the mode’s estimate c, or 0 when there is no estimate. */
  lemma ParsedDurationBounded(data: OsrmResponse, m: WebMode, origin: Place, destination: Place)
    requires ParseRouteResponse(data, m, origin, destination).Ok?
    ensures var r := ParseRouteResponse(data, m, origin, destination).value;
      var c := CalculateDuration(r.totalDistance, m) as real;
      && (c == 0.0 ==> r.totalDuration == 0.0)
      && (c > 0.0 ==> 0.7 * c <= r.totalDuration <= 2.0 * c)
  {
  }
}
