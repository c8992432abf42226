/** The web client’s Google Directions result handling: the travel mode
    sent, the sums over the legs, the waypoints and instructions taken from
    the steps, the choice of polyline and the rejections. The Directions
    service itself is left out; its result is a typed tree. */
module GoogleDirections {
  import opened Wrappers
  import opened Text
  import opened WebTypes
  import Polyline
  import MapsLink

  /** `getTravelMode`: each mode to Google’s mode of the same name, the
      upper-case form of the travel mode the map link uses. */
  function TravelMode(m: WebMode): (s: string)
    ensures s == UpperAscii(MapsLink.GoogleMode(m))
  {
    match m
    case Driving => UpperName("driving", "DRIVING"); "DRIVING"
    case Bicycling => UpperName("bicycling", "BICYCLING"); "BICYCLING"
    case Walking => UpperName("walking", "WALKING"); "WALKING"
    case Transit => UpperName("transit", "TRANSIT"); "TRANSIT"
  }

  /** A lower-case name and its upper-case form, letter by letter. */
  lemma UpperName(lower: string, upper: string)
    requires |lower| == |upper|
    requires forall i | 0 <= i < |lower| :: 'a' <= lower[i] <= 'z' && upper[i] == (lower[i] as int - 32) as char
    ensures UpperAscii(lower) == upper
  {
  }

  /** Every mode is sent as its own Google mode: no two share one. */
  lemma TravelModeInjective(a: WebMode, b: WebMode)
    ensures TravelMode(a) == TravelMode(b) <==> a == b
  {
    if a != b {
      match a
      case Driving => assert TravelMode(a)[0] == 'D' && TravelMode(b)[0] != 'D';
      case Bicycling => assert TravelMode(a)[0] == 'B' && TravelMode(b)[0] != 'B';
      case Walking => assert TravelMode(a)[0] == 'W' && TravelMode(b)[0] != 'W';
      case Transit => assert TravelMode(a)[0] == 'T' && TravelMode(b)[0] != 'T';
    }
  }

  // ---------------------------------------------------------------------
  // The result tree

  /** A step: where it ends, its HTML instructions, and its polyline’s
      `points` when that is a string. */
  datatype GStep = GStep(endLat: real, endLng: real, instructions: string, polyline: Option<string>)

  /** A leg; `distance`, `duration` and `durationInTraffic` are the `.value`
      of objects that may be missing. */
  datatype GLeg = GLeg(
    distance: Option<real>,
    duration: Option<real>,
    durationInTraffic: Option<real>,
    steps: seq<GStep>)

  /** `overview_polyline`: missing, a string, or an object whose `points`
      may or may not be a string. */
  datatype Overview = NoOverview | OverviewText(text: string) | OverviewObject(points: Option<string>)

  datatype GRoute = GRoute(legs: seq<GLeg>, overview: Overview)

  // ---------------------------------------------------------------------
  // Tags

  /** No `<` is followed, anywhere later, by a `>`. */
  predicate Tagless(s: string) {
    |s| == 0 || ((s[0] == '<' ==> '>' !in s) && Tagless(s[1..]))
  }

  /** `s.replace(/<[^>]*>/g, "")`: each `<` with a `>` somewhere after it
      is removed together with everything up to the first such `>`. */
  function StripTags(s: string): (r: string)
    ensures |r| <= |s|
    decreases |s|
  {
    if |s| == 0 then ""
    else if s[0] == '<' && '>' in s then
      var close := FirstIndex(s, '>');
      StripTags(s[close + 1..])
    else
      [s[0]] + StripTags(s[1..])
  }

  /** Stripping only removes characters: a `>` in the result was in the
      input. */
  lemma {:induction false} StripTagsAddsNoClose(s: string)
    requires '>' !in s
    ensures '>' !in StripTags(s)
    decreases |s|
  {
    if |s| > 0 {
      assert '>' !in s[1..];
      StripTagsAddsNoClose(s[1..]);
    }
  }

  /** Stripping leaves no tag behind. */
  lemma {:induction false} StripTagsTagless(s: string)
    ensures Tagless(StripTags(s))
    decreases |s|
  {
    if |s| > 0 {
      if s[0] == '<' && '>' in s {
        StripTagsTagless(s[FirstIndex(s, '>') + 1..]);
      } else {
        StripTagsTagless(s[1..]);
        var r := StripTags(s);
        assert r[1..] == StripTags(s[1..]);
        if s[0] == '<' {
          StripTagsAddsNoClose(s[1..]);
        }
      }
    }
  }

  /** Text without tags is left as it is. */
  lemma {:induction false} StripTagsKeepsTagless(s: string)
    requires Tagless(s)
    ensures StripTags(s) == s
    decreases |s|
  {
    if |s| > 0 {
      StripTagsKeepsTagless(s[1..]);
    }
  }

  /** Stripping twice strips nothing more. */
  lemma StripTagsIdempotent(s: string)
    ensures StripTags(StripTags(s)) == StripTags(s)
  {
    StripTagsTagless(s);
    StripTagsKeepsTagless(StripTags(s));
  }

  /** A bold word loses its markup. */
  lemma StripTagsExample()
    ensures StripTags("<b>A</b>") == "A"
  {
    var s := "<b>A</b>";
    assert FirstIndex(s, '>') == 2;
    assert s[3..] == "A</b>";
    var t := "A</b>";
    assert t[1..] == "</b>";
    assert FirstIndex("</b>", '>') == 3;
    assert "</b>"[4..] == "";
  }

  // ---------------------------------------------------------------------
  // Legs

  /** `if (!leg.distance || !leg.duration) return`: a leg counts only with
      both. */
  predicate Accepted(l: GLeg) {
    l.distance.Some? && l.duration.Some?
  }

  /** The leg’s duration: in traffic when driving and known, else the
      plain one. */
  function LegDuration(l: GLeg, m: WebMode): real
    requires Accepted(l)
  {
    if m == Driving && l.durationInTraffic.Some? then l.durationInTraffic.value else l.duration.value
  }

  function TotalDistance(legs: seq<GLeg>): real {
    if |legs| == 0 then 0.0
    else
      var last := legs[|legs| - 1];
      TotalDistance(legs[..|legs| - 1]) + (if Accepted(last) then last.distance.value else 0.0)
  }

  function TotalDuration(legs: seq<GLeg>, m: WebMode): real {
    if |legs| == 0 then 0.0
    else
      var last := legs[|legs| - 1];
      TotalDuration(legs[..|legs| - 1], m) + (if Accepted(last) then LegDuration(last, m) else 0.0)
  }

  /** The steps of the accepted legs, leg by leg. */
  function AcceptedSteps(legs: seq<GLeg>): seq<GStep> {
    if |legs| == 0 then []
    else
      var last := legs[|legs| - 1];
      AcceptedSteps(legs[..|legs| - 1]) + (if Accepted(last) then last.steps else [])
  }

  function EndPlaces(steps: seq<GStep>): (ps: seq<Place>)
    ensures |ps| == |steps|
    ensures forall k | 0 <= k < |steps| :: ps[k] == PlaceAt(steps[k].endLat, steps[k].endLng)
  {
    if |steps| == 0 then [] else EndPlaces(steps[..|steps| - 1]) + [PlaceAt(steps[|steps| - 1].endLat, steps[|steps| - 1].endLng)]
  }

  function StrippedInstructions(steps: seq<GStep>): (ts: seq<string>)
    ensures |ts| == |steps|
    ensures forall k | 0 <= k < |steps| :: ts[k] == StripTags(steps[k].instructions)
  {
    if |steps| == 0 then [] else StrippedInstructions(steps[..|steps| - 1]) + [StripTags(steps[|steps| - 1].instructions)]
  }

  /** The totals, step end points and instructions of some legs. */
  datatype Tally = Tally(distance: real, duration: real, stops: seq<Place>, instructions: seq<string>)

  function TallyOf(legs: seq<GLeg>, m: WebMode): Tally {
    var steps := AcceptedSteps(legs);
    Tally(TotalDistance(legs), TotalDuration(legs, m), EndPlaces(steps), StrippedInstructions(steps))
  }

  /** The inner forEach over one leg’s steps. */
  method CollectSteps(waypoints: seq<Place>, instructions: seq<string>, steps: seq<GStep>)
    returns (waypoints': seq<Place>, instructions': seq<string>)
    ensures waypoints' == waypoints + EndPlaces(steps)
    ensures instructions' == instructions + StrippedInstructions(steps)
  {
    waypoints', instructions' := waypoints, instructions;
    var j := 0;
    while j < |steps|
      invariant 0 <= j <= |steps|
      invariant waypoints' == waypoints + EndPlaces(steps[..j])
      invariant instructions' == instructions + StrippedInstructions(steps[..j])
    {
      assert steps[..j + 1][..j] == steps[..j];
      waypoints' := waypoints' + [PlaceAt(steps[j].endLat, steps[j].endLng)];
      instructions' := instructions' + [StripTags(steps[j].instructions)];
      j := j + 1;
    }
    assert steps[..j] == steps;
  }

  lemma {:induction false} AppendedSteps(a: seq<GStep>, b: seq<GStep>)
    ensures EndPlaces(a + b) == EndPlaces(a) + EndPlaces(b)
    ensures StrippedInstructions(a + b) == StrippedInstructions(a) + StrippedInstructions(b)
    decreases |b|
  {
    if |b| > 0 {
      var b' := b[..|b| - 1];
      assert (a + b)[..|a + b| - 1] == a + b';
      AppendedSteps(a, b');
    } else {
      assert a + b == a;
    }
  }

  /** One more leg adds its sums, waypoints and instructions when it is
      accepted, and nothing otherwise. */
  lemma TallyStep(legs: seq<GLeg>, i: nat, m: WebMode)
    requires i < |legs|
    ensures var before, after := TallyOf(legs[..i], m), TallyOf(legs[..i + 1], m);
      var leg := legs[i];
      if Accepted(leg) then
        after == Tally(before.distance + leg.distance.value, before.duration + LegDuration(leg, m),
          before.stops + EndPlaces(leg.steps), before.instructions + StrippedInstructions(leg.steps))
      else after == before
  {
    var xs, before, leg := legs[..i + 1], legs[..i], legs[i];
    LegsUnfold(xs, m);
    assert xs[..|xs| - 1] == before;
    assert xs[|xs| - 1] == leg;
    if Accepted(leg) {
      AppendedSteps(AcceptedSteps(before), leg.steps);
    }
  }

  /** The definitions of the sums and steps, unfolded once. */
  lemma LegsUnfold(xs: seq<GLeg>, m: WebMode)
    requires |xs| > 0
    ensures var init, last := xs[..|xs| - 1], xs[|xs| - 1];
      && TotalDistance(xs) == TotalDistance(init) + (if Accepted(last) then last.distance.value else 0.0)
      && TotalDuration(xs, m) == TotalDuration(init, m) + (if Accepted(last) then LegDuration(last, m) else 0.0)
      && AcceptedSteps(xs) == AcceptedSteps(init) + (if Accepted(last) then last.steps else [])
  {
  }

  /** The callback’s forEach over legs and steps. */
  method CollectLegs(legs: seq<GLeg>, m: WebMode) returns (t: Tally)
    ensures t == TallyOf(legs, m)
  {
    t := Tally(0.0, 0.0, [], []);
    var i := 0;
    while i < |legs|
      invariant 0 <= i <= |legs|
      invariant t == TallyOf(legs[..i], m)
    {
      var leg := legs[i];
      TallyStep(legs, i, m);
      if Accepted(leg) {
        var stops, instructions := CollectSteps(t.stops, t.instructions, leg.steps);
        t := Tally(t.distance + leg.distance.value, t.duration + LegDuration(leg, m), stops, instructions);
      }
      i := i + 1;
    }
    assert legs[..i] == legs;
  }

  /** A leg missing its distance or duration contributes nothing: removing
      it changes neither total, nor the waypoints, nor the instructions. */
  lemma {:induction false} SkippedLegIgnored(a: seq<GLeg>, l: GLeg, b: seq<GLeg>, m: WebMode)
    requires !Accepted(l)
    ensures TotalDistance(a + [l] + b) == TotalDistance(a + b)
    ensures TotalDuration(a + [l] + b, m) == TotalDuration(a + b, m)
    ensures AcceptedSteps(a + [l] + b) == AcceptedSteps(a + b)
    decreases |b|
  {
    var xs, ys := a + [l] + b, a + b;
    LegsUnfold(xs, m);
    if |b| == 0 {
      assert xs[..|xs| - 1] == a && xs[|xs| - 1] == l;
      assert ys == a;
    } else {
      var b' := b[..|b| - 1];
      LegsUnfold(ys, m);
      assert xs[..|xs| - 1] == a + [l] + b';
      assert ys[..|ys| - 1] == a + b';
      assert xs[|xs| - 1] == ys[|ys| - 1];
      SkippedLegIgnored(a, l, b', m);
    }
  }

  /** Traffic is consulted only when driving: for any other mode the total
      duration is the plain sum, whatever the legs’ traffic times. */
  lemma {:induction false} TrafficOnlyWhenDriving(legs: seq<GLeg>, m: WebMode)
    requires m != Driving
    ensures TotalDuration(legs, m) == TotalDuration(PlainLegs(legs), Driving)
  {
    if |legs| > 0 {
      TrafficOnlyWhenDriving(legs[..|legs| - 1], m);
      assert PlainLegs(legs)[..|legs| - 1] == PlainLegs(legs[..|legs| - 1]);
    }
  }

  /** The legs with their traffic times removed. */
  function PlainLegs(legs: seq<GLeg>): (r: seq<GLeg>)
    ensures |r| == |legs|
    ensures forall k | 0 <= k < |legs| :: r[k] == legs[k].(durationInTraffic := None)
  {
    if |legs| == 0 then [] else PlainLegs(legs[..|legs| - 1]) + [legs[|legs| - 1].(durationInTraffic := None)]
  }

  // ---------------------------------------------------------------------
  // Polyline

  /** The encoded polyline the callback settles on: a non-empty string
      overview, else a string `points` of an overview object, else (when
      that left nothing) the first step of the first leg; "" if none. */
  function PolylineSource(rd: GRoute): (encoded: string)
    ensures rd.overview.OverviewText? && rd.overview.text != "" ==> encoded == rd.overview.text
    ensures rd.overview.OverviewObject? && rd.overview.points.Some? && rd.overview.points.value != "" ==>
      encoded == rd.overview.points.value
  {
    var fromOverview :=
      match rd.overview
      case NoOverview => ""
      case OverviewText(t) => t
      case OverviewObject(points) => points.GetOr("");
    if fromOverview == "" && |rd.legs| > 0 && |rd.legs[0].steps| > 0 && rd.legs[0].steps[0].polyline.Some? then
      rd.legs[0].steps[0].polyline.value
    else
      fromOverview
  }

  /** The first step is consulted only when the overview gives no text, and
      then it is used whenever it has a string polyline. */
  lemma PolylineFallback(rd: GRoute)
    requires rd.overview.NoOverview? || rd.overview == OverviewText("") ||
      (rd.overview.OverviewObject? && rd.overview.points.GetOr("") == "")
    ensures |rd.legs| > 0 && |rd.legs[0].steps| > 0 && rd.legs[0].steps[0].polyline.Some? ==>
      PolylineSource(rd) == rd.legs[0].steps[0].polyline.value
    ensures !(|rd.legs| > 0 && |rd.legs[0].steps| > 0 && rd.legs[0].steps[0].polyline.Some?) ==>
      PolylineSource(rd) == ""
  {
  }

  /** The decoder gives at least one pair for any non-empty text. */
  lemma DecodeNonEmpty(s: string)
    requires s != ""
    ensures |Polyline.DecodeLenient(s)| >= 1
  {
  }

  /** The decoded pairs in degrees, `[lng, lat]`. */
  function DegreesOf(pairs: seq<(int, int)>): (ps: seq<Position>)
    ensures |ps| == |pairs|
    ensures forall k | 0 <= k < |pairs| :: ps[k] == Polyline.ToDegrees(pairs[k])
  {
    if |pairs| == 0 then [] else [Polyline.ToDegrees(pairs[0])] + DegreesOf(pairs[1..])
  }

  // ---------------------------------------------------------------------
  // The callback

  /** The callback of `calculateRoute` on the first route of a result:
      rejects a failed status or a result without routes, then zero totals,
      then a missing polyline, then a polyline that decodes to nothing. */
  function AssembleRoute(status: string, routes: Option<seq<GRoute>>, m: WebMode, origin: Place, destination: Place): (r: Result<WebRoute, string>)
    ensures status != "OK" || routes.None? || |routes.value| == 0 ==> r == Err("Google Maps API error: " + status)
    ensures r.Ok? ==>
      var rd := routes.value[0];
      var steps := AcceptedSteps(rd.legs);
      && r.value.waypoints == [origin] + EndPlaces(steps) + [destination]
      && r.value.totalDistance == TotalDistance(rd.legs) != 0.0
      && r.value.totalDuration == TotalDuration(rd.legs, m) != 0.0
      && r.value.transportMode == m
      && |r.value.geometry| >= 1
      && r.value.geometry == DegreesOf(Polyline.DecodeLenient(PolylineSource(rd)))
      && r.value.instructions == Some(StrippedInstructions(steps))
  {
    if status != "OK" || routes.None? || |routes.value| == 0 then
      Err("Google Maps API error: " + status)
    else
      var rd := routes.value[0];
      var t := TallyOf(rd.legs, m);
      if t.distance == 0.0 || t.duration == 0.0 then Err("Invalid route data")
      else
        var encoded := PolylineSource(rd);
        if encoded == "" then Err("No polyline data in route")
        else
          var coordinates := DegreesOf(Polyline.DecodeLenient(encoded));
          if |coordinates| == 0 then Err("Failed to decode route polyline")
          else Ok(WebRoute([origin] + t.stops + [destination], t.distance, t.duration, m, coordinates, Some(t.instructions)))
  }

  /** Which rejection a successful status meets, in the callback’s order;
      the decoding failure can never be reached, since any non-empty text
      decodes to at least one pair. */
  lemma AssembleRouteRejections(routes: seq<GRoute>, m: WebMode, origin: Place, destination: Place)
    requires |routes| > 0
    ensures var rd := routes[0];
      var r := AssembleRoute("OK", Some(routes), m, origin, destination);
      && (r == Err("Invalid route data") <==> TotalDistance(rd.legs) == 0.0 || TotalDuration(rd.legs, m) == 0.0)
      && (r == Err("No polyline data in route") <==>
            TotalDistance(rd.legs) != 0.0 && TotalDuration(rd.legs, m) != 0.0 && PolylineSource(rd) == "")
      && r != Err("Failed to decode route polyline")
      && (r.Ok? <==> TotalDistance(rd.legs) != 0.0 && TotalDuration(rd.legs, m) != 0.0 && PolylineSource(rd) != "")
  {
    var encoded := PolylineSource(routes[0]);
    if encoded != "" {
      DecodeNonEmpty(encoded);
    }
  }
}
