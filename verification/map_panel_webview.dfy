/** The web-view map panel `MapPanelWebView`: the Swing panel state, kept in
    step with a Leaflet page through scripts, with clicks polled back as
    JSON text. The scripts are each transition’s output; none runs before
    the page engine is up. */
module MapPanelWebView {
  import opened Wrappers
  import opened Text
  import opened Locations
  import opened Routes

  datatype WebPanel = WebPanel(
    selected: seq<Location>,
    route: Option<Route>,
    center: Location,
    zoom: int,
    hasListener: bool,
    engineReady: bool)

  const MinZoom: int := 1
  const MaxZoom: int := 19

  function NewWebPanel(): (p: WebPanel)
    ensures p.center.latitude == 38.7223 && p.center.longitude == -9.1393
    ensures p.zoom == 13 && p.selected == [] && p.route.None? && !p.hasListener
  {
    WebPanel([], None, At(38.7223, -9.1393), 13, false, false)
  }

  /** `executeJS`: the script, unless there is no engine. */
  function Run(p: WebPanel, script: string): (out: seq<string>)
    ensures |out| <= 1 && forall k | 0 <= k < |out| :: out[k] == script
    ensures |out| == 1 <==> p.engineReady
  {
    if p.engineReady then [script] else []
  }

  /** `%f`: six decimals, reading back as the number to within half a
      millionth, with no comma. */
  function F6(x: real): (s: string)
    ensures IsDecimal(s) && WithinHalfUnit(DecimalValue(s), x, 6)
    ensures ',' !in s
  {
    FixedValue(x, 6);
    Fixed(x, 6)
  }

  /** The `setMapCenter` call: its three comma-separated arguments are the
      latitude and longitude at six decimals and the zoom. */
  function CenterScript(c: Location, zoom: int): (r: string)
    ensures |r| >= |CenterOpen| + |CallClose| && r[..|CenterOpen|] == CenterOpen && r[|r| - |CallClose|..] == CallClose
    ensures Split(r[|CenterOpen|..|r| - |CallClose|], ',') == [F6(c.latitude), " " + F6(c.longitude), " " + IntToString(zoom)]
  {
    var a, b, z := F6(c.latitude), F6(c.longitude), IntToString(zoom);
    var args := a + ", " + b + ", " + z;
    Framed(CenterOpen, args, CallClose);
    IntHasNoComma(zoom);
    ArgumentsSplit(a, b, z);
    CenterOpen + args + CallClose
  }

  const CenterOpen: string := "window.setMapCenter("
  const RouteOpen: string := "window.drawRoute(["
  const CallClose: string := ");"
  const ArrayClose: string := "]);"

  /** A three-part concatenation keeps its outer parts at its ends and its
      middle between them. */
  lemma Framed(a: string, b: string, c: string)
    ensures (a + b + c)[..|a|] == a && (a + b + c)[|a| + |b|..] == c
    ensures (a + b + c)[|a|..|a| + |b|] == b
    ensures multiset(a + b + c) == multiset(a) + multiset(b) + multiset(c)
  {
    assert a + b + c == a + (b + c);
  }

  lemma IntHasNoComma(i: int)
    ensures ',' !in IntToString(i)
  {
    var d := NatToString(if i < 0 then -i else i);
    assert forall k | 0 <= k < |d| :: IsDigit(d[k]);
  }

  /** Three comma-free arguments joined by ", " split back at the commas. */
  lemma ArgumentsSplit(a: string, b: string, z: string)
    requires ',' !in a && ',' !in b && ',' !in z
    ensures Split(a + ", " + b + ", " + z, ',') == [a, " " + b, " " + z]
  {
    var b', z' := " " + b, " " + z;
    var parts := [a, b', z'];
    ArgumentsJoin(a, b', z');
    assert a + ", " + b + ", " + z == a + [','] + (b' + [','] + z');
    SpaceHasNoComma(b);
    SpaceHasNoComma(z);
    SplitJoin(parts, ',');
  }

  lemma ArgumentsJoin(a: string, b: string, z: string)
    ensures Join([','], [a, b, z]) == a + [','] + (b + [','] + z)
  {
    assert [a, b, z][1..] == [b, z];
    JoinPair([','], b, z);
  }

  lemma SpaceHasNoComma(b: string)
    requires ',' !in b
    ensures ',' !in " " + b
  {
    assert forall k | 1 <= k < |" " + b| :: (" " + b)[k] == b[k - 1];
  }

  /** `setMapCenter`: store the centre and move the page there. */
  function SetMapCenter(p: WebPanel, c: Location): (r: (WebPanel, seq<string>))
    ensures r.0 == p.(center := c)
    ensures r.1 == Run(p, CenterScript(c, p.zoom))
  {
    (p.(center := c), Run(p, CenterScript(c, p.zoom)))
  }

  /** `setZoomLevel`: the value clamped into [1, 19], then the page is
      moved to the centre at that zoom. */
  function SetZoomLevel(p: WebPanel, z: int): (r: (WebPanel, seq<string>))
    ensures MinZoom <= r.0.zoom <= MaxZoom
    ensures MinZoom <= z <= MaxZoom ==> r.0.zoom == z
    ensures z < MinZoom ==> r.0.zoom == MinZoom
    ensures z > MaxZoom ==> r.0.zoom == MaxZoom
    ensures r.0 == p.(zoom := r.0.zoom)
    ensures r.1 == Run(p, CenterScript(p.center, r.0.zoom))
  {
    var capped := if z < MaxZoom then z else MaxZoom;
    var q := p.(zoom := if capped > MinZoom then capped else MinZoom);
    (q, Run(p, CenterScript(p.center, q.zoom)))
  }

  /** One waypoint in the `drawRoute` argument. */
  function WaypointEntry(l: Location): string {
    "{lat: " + F6(l.latitude) + ", lon: " + F6(l.longitude) + "}"
  }

  function WaypointEntries(ws: seq<Location>): (es: seq<string>)
    ensures |es| == |ws|
    ensures forall k | 0 <= k < |ws| :: es[k] == WaypointEntry(ws[k])
  {
    MapText(ws, WaypointEntry)
  }

  /** The `drawRoute` call: an array literal holding one `{` per waypoint. */
  function DrawRouteScript(ws: seq<Location>): (r: string)
    ensures |r| >= |RouteOpen| + |ArrayClose| && r[..|RouteOpen|] == RouteOpen && r[|r| - |ArrayClose|..] == ArrayClose
    ensures multiset(r[|RouteOpen|..|r| - |ArrayClose|])['{'] == |ws|
  {
    Framed(RouteOpen, EntryList(ws), ArrayClose);
    EntriesBraceCount(WaypointEntries(ws), ws);
    RouteOpen + EntryList(ws) + ArrayClose
  }

  /** The entries joined by ", ", the array body of the drawing script. */
  function EntryList(ws: seq<Location>): string {
    Join(", ", WaypointEntries(ws))
  }

  /** The loop in `setRoute` that writes the entries, ", " between them. */
  method BuildDrawRouteScript(ws: seq<Location>) returns (script: string)
    requires |ws| >= 2
    ensures script == DrawRouteScript(ws)
  {
    var body := AppendJoined(", ", WaypointEntries(ws));
    script := RouteOpen + body + ArrayClose;
  }

  /** `setRoute`: the route is stored; a script is asked for only when the
      route has at least two waypoints. */
  function SetRoute(p: WebPanel, route: Option<Route>): (r: (WebPanel, seq<string>))
    ensures r.0 == p.(route := route)
    ensures route.None? || |route.value.waypoints| < 2 ==> r.1 == []
    ensures route.Some? && |route.value.waypoints| >= 2 ==> r.1 == Run(p, DrawRouteScript(route.value.waypoints))
  {
    var q := p.(route := route);
    if route.Some? && !IsEmpty(route.value) && |route.value.waypoints| >= 2 then
      (q, Run(p, DrawRouteScript(route.value.waypoints)))
    else (q, [])
  }

  /** One "{lat: …, lon: …}" entry per waypoint: the script holds as many
      `{` as there are waypoints. */
  lemma DrawRouteEntryCount(ws: seq<Location>)
    ensures multiset(Join(", ", WaypointEntries(ws)))['{'] == |ws|
  {
    EntriesBraceCount(WaypointEntries(ws), ws);
  }

  lemma {:induction false} EntriesBraceCount(es: seq<string>, ws: seq<Location>)
    requires es == WaypointEntries(ws)
    ensures multiset(Join(", ", es))['{'] == |ws|
  {
    if |ws| > 0 {
      EntryBraceCount(ws[0]);
      EntriesBraceCount(es[1..], ws[1..]);
      if |ws| > 1 {
        assert Join(", ", es) == es[0] + ", " + Join(", ", es[1..]);
      }
    }
  }

  lemma EntryBraceCount(l: Location)
    ensures multiset(WaypointEntry(l))['{'] == 1
  {
    var a, b := F6(l.latitude), F6(l.longitude);
    NoBraceInFixed(a);
    NoBraceInFixed(b);
    EntryShapeBraces(a, b, WaypointEntry(l));
  }

  lemma EntryShapeBraces(a: string, b: string, e: string)
    requires multiset(a)['{'] == 0 && multiset(b)['{'] == 0
    requires e == "{lat: " + a + ", lon: " + b + "}"
    ensures multiset(e)['{'] == 1
  {
    assert multiset(e) == multiset("{lat: ") + multiset(a) + multiset(", lon: ") + multiset(b) + multiset("}");
    assert multiset("{lat: ")['{'] == 1 && multiset(", lon: ")['{'] == 0 && multiset("}")['{'] == 0;
  }

  lemma NoBraceInFixed(t: string)
    requires forall k | 0 <= k < |t| :: IsFixedChar(t[k])
    ensures multiset(t)['{'] == 0
  {
    forall k | 0 <= k < |t|
      ensures t[k] != '{'
    {
      assert IsFixedChar(t[k]);
    }
    assert '{' !in t;
  }

  /** `clearRoute`: no route, and an empty `drawRoute` script. */
  function ClearRoute(p: WebPanel): (r: (WebPanel, seq<string>))
    ensures r.0 == p.(route := None)
    ensures r.1 == Run(p, "window.drawRoute([]);")
  {
    (p.(route := None), Run(p, "window.drawRoute([]);"))
  }

  /** `clearSelectedPoints`: no selection, and the page’s markers go. */
  function ClearSelectedPoints(p: WebPanel): (r: (WebPanel, seq<string>))
    ensures r.0 == p.(selected := [])
    ensures r.1 == Run(p, "window.clearMarkers();")
  {
    (p.(selected := []), Run(p, "window.clearMarkers();"))
  }

  // ---------------------------------------------------------------------
  // Clicks reported by the page

  const TypeClick: string := "\"type\":\"click\""
  const LatKey: string := "\"lat\":"
  const LonKey: string := "\"lon\":"

  /** The poller’s reading of one polled value: `None` when it is not a
      click or cannot be read. Latitude text runs from after "lat": to the
      next `,` (or `}` when there is none), longitude text from after
      "lon": to the next `}`. A substring with bad bounds throws and a
      number that does not parse throws; both are swallowed. How a number
      is parsed is a parameter. */
  function ParseClick(raw: Option<string>, parse: string -> Option<real>): (r: Option<(real, real)>)
    ensures r.Some? ==> raw.Some? && raw.value != "null" && |raw.value| > 0
    ensures r.Some? ==> StartsWith(JavaTrim(raw.value), "{") && Contains(JavaTrim(raw.value), TypeClick)
    ensures r.Some? ==> Contains(JavaTrim(raw.value), LatKey) && Contains(JavaTrim(raw.value), LonKey)
  {
    if raw.None? || raw.value == "null" || |raw.value| == 0 then None
    else
      var s := JavaTrim(raw.value);
      if !(StartsWith(s, "{") && Contains(s, TypeClick)) then None
      else ReadClick(s, parse)
  }

  /** The number-reading part of the poller, on a trimmed click text. */
  function ReadClick(s: string, parse: string -> Option<real>): (r: Option<(real, real)>)
    ensures r.Some? ==> Contains(s, LatKey) && Contains(s, LonKey)
  {
    var latStart := IndexOf(s, LatKey, 0) + 6;
    var lonStart := IndexOf(s, LonKey, 0) + 6;
    ReadNumbers(s, latStart, LatEnd(s, latStart), lonStart, IndexOf(s, "}", lonStart), parse)
  }

  /** Where the latitude text ends: the next `,`, or the next `}` when
      there is no `,`. */
  function LatEnd(s: string, latStart: nat): (r: int)
    ensures r >= -1
    ensures r >= 0 ==> latStart <= r < |s| && (s[r] == ',' || s[r] == '}')
    ensures r >= 0 && s[r] == ',' ==> forall k | latStart <= k < r :: s[k] != ','
    ensures r >= 0 && s[r] == '}' ==> forall k | latStart <= k < |s| :: s[k] != ','
    ensures r >= 0 && s[r] == '}' ==> forall k | latStart <= k < r :: s[k] != '}'
    ensures r == -1 <==> forall k | latStart <= k < |s| :: s[k] != ',' && s[k] != '}'
  {
    MatchOne(s, ',');
    MatchOne(s, '}');
    var comma := IndexOf(s, ",", latStart);
    if comma == -1 then IndexOf(s, "}", latStart) else comma
  }

  /** Both keys found, both ranges well formed, both numbers parse. */
  function ReadNumbers(s: string, latStart: int, latEnd: int, lonStart: int, lonEnd: int, parse: string -> Option<real>): (r: Option<(real, real)>)
    ensures r.Some? ==> latStart > 5 && lonStart > 5
  {
    if !(latStart > 5 && lonStart > 5) then None
    else if !(latStart <= latEnd <= |s| && lonStart <= lonEnd <= |s|) then None
    else
      match (parse(JavaTrim(s[latStart..latEnd])), parse(JavaTrim(s[lonStart..lonEnd])))
      case (Some(lat), Some(lon)) => Some((lat, lon))
      case _ => None
  }

  /** `handleMapClick(lat, lon)`: a new Location at the end of the
      selection, and one notice to the listener, if any. */
  function HandleClick(p: WebPanel, lat: real, lon: real): (r: (WebPanel, seq<Location>))
    ensures r.0 == p.(selected := p.selected + [At(lat, lon)])
    ensures r.1 == if p.hasListener then [At(lat, lon)] else []
  {
    var l := At(lat, lon);
    (p.(selected := p.selected + [l]), if p.hasListener then [l] else [])
  }

  /** One poll: a readable click adds exactly one point; anything else
      changes nothing. */
  function Poll(p: WebPanel, raw: Option<string>, parse: string -> Option<real>): (r: (WebPanel, seq<Location>))
    ensures ParseClick(raw, parse).None? ==> r == (p, [])
    ensures ParseClick(raw, parse).Some? ==> |r.0.selected| == |p.selected| + 1 && r.0.selected[..|p.selected|] == p.selected
  {
    match ParseClick(raw, parse)
    case None => (p, [])
    case Some((lat, lon)) => HandleClick(p, lat, lon)
  }

  /** A trimmed text that starts with `{` and names a click goes on to
      the number reading. */
  lemma ParseClickGuards(s: string, parse: string -> Option<real>)
    requires s != "null" && |s| > 0 && JavaTrim(s) == s
    requires StartsWith(s, "{") && Contains(s, TypeClick)
    ensures ParseClick(Some(s), parse) == ReadClick(s, parse)
  {
  }

  lemma ReadClickUnfold(s: string, parse: string -> Option<real>, latStart: nat, lonStart: nat, latEnd: int, lonEnd: int)
    requires IndexOf(s, LatKey, 0) + 6 == latStart && IndexOf(s, LonKey, 0) + 6 == lonStart
    requires LatEnd(s, latStart) == latEnd && IndexOf(s, "}", lonStart) == lonEnd
    ensures ReadClick(s, parse) == ReadNumbers(s, latStart, latEnd, lonStart, lonEnd, parse)
  {
  }

  /** Numerals need no trimming: two numerals at the slices read as the
      numbers they parse to. */
  lemma ReadNumbersOk(s: string, latStart: nat, latEnd: nat, lonStart: nat, lonEnd: nat, x: real, y: real, parse: string -> Option<real>)
    requires 5 < latStart <= latEnd <= |s| && 5 < lonStart <= lonEnd <= |s|
    requires IsNumeral(s[latStart..latEnd]) && IsNumeral(s[lonStart..lonEnd])
    requires parse(s[latStart..latEnd]) == Some(x) && parse(s[lonStart..lonEnd]) == Some(y)
    ensures ReadNumbers(s, latStart, latEnd, lonStart, lonEnd, parse) == Some((x, y))
  {
    NumeralIsTrimmed(s[latStart..latEnd]);
    NumeralIsTrimmed(s[lonStart..lonEnd]);
  }

  /** The fixed text before the latitude, and between the numbers. */
  const Head: string := "{" + TypeClick + "," + LatKey
  const Middle: string := "," + LonKey

  lemma HeadFacts()
    ensures |Head| == 22 && |Middle| == 7
    ensures Head[0] == '{' && Head[1..15] == TypeClick && Head[16..22] == LatKey
    ensures forall k | 0 <= k < 16 :: !(Head[k] == '"' && Head[k + 1] == 'l')
    ensures forall k | 0 <= k < 20 :: !(Head[k] == '"' && Head[k + 1] == 'l' && Head[k + 2] == 'o')
    ensures Head[20] == '"' && Head[21] == ':'
    ensures Middle[0] == ',' && Middle[1..] == LonKey
  {
  }

  /** The text the page’s bridge sends for a click: `JSON.stringify` of
      `{type: `click`, lat, lon}`. */
  function Payload(lat: string, lon: string): string {
    Head + lat + Middle + lon + "}"
  }

  lemma PayloadLength(a: string, b: string)
    ensures |Payload(a, b)| == 30 + |a| + |b|
  {
    HeadFacts();
  }

  lemma PayloadChars(a: string, b: string, k: nat)
    requires k < |Payload(a, b)|
    ensures k < 22 ==> Payload(a, b)[k] == Head[k]
    ensures 22 <= k < 22 + |a| ==> Payload(a, b)[k] == a[k - 22]
    ensures 22 + |a| <= k < 29 + |a| ==> Payload(a, b)[k] == Middle[k - 22 - |a|]
    ensures 29 + |a| <= k < 29 + |a| + |b| ==> Payload(a, b)[k] == b[k - 29 - |a|]
    ensures k == 29 + |a| + |b| ==> Payload(a, b)[k] == '}'
  {
    HeadFacts();
  }

  lemma PayloadFrame(a: string, b: string)
    ensures var s := Payload(a, b);
      && |s| == 30 + |a| + |b|
      && s != "null" && JavaTrim(s) == s && StartsWith(s, "{") && Contains(s, TypeClick)
  {
    HeadFacts();
    var s := Payload(a, b);
    PayloadChars(a, b, 0);
    PayloadChars(a, b, |s| - 1);
    assert s[1..15] == Head[1..15];
    Mismatch(s, TypeClick, 0, 0);
    IndexOfIs(s, TypeClick, 0, 1);
    assert s[..1] == "{";
  }

  lemma PayloadLatKey(a: string, b: string)
    ensures IndexOf(Payload(a, b), LatKey, 0) == 16
  {
    HeadFacts();
    var s := Payload(a, b);
    assert s[16..22] == Head[16..22];
    forall k | 0 <= k < 16
      ensures !MatchAt(s, LatKey, k)
    {
      PayloadChars(a, b, k);
      PayloadChars(a, b, k + 1);
      if s[k] != '"' {
        Mismatch(s, LatKey, k, 0);
      } else {
        Mismatch(s, LatKey, k, 1);
      }
    }
    IndexOfIs(s, LatKey, 0, 16);
  }

  /** No `,` or `}` inside the numbers. */
  lemma PayloadNumberChar(a: string, b: string, k: nat)
    requires IsNumeral(a) && IsNumeral(b)
    requires 22 <= k < 22 + |a| || 29 + |a| <= k < 29 + |a| + |b|
    ensures k < |Payload(a, b)| && Payload(a, b)[k] != ',' && Payload(a, b)[k] != '}'
  {
    PayloadLength(a, b);
    PayloadChars(a, b, k);
    if k < 22 + |a| {
      assert IsNumeralChar(a[k - 22]);
    } else {
      assert IsNumeralChar(b[k - 29 - |a|]);
    }
  }

  lemma PayloadComma(a: string, b: string)
    requires IsNumeral(a) && IsNumeral(b)
    ensures IndexOf(Payload(a, b), ",", 22) == 22 + |a|
  {
    var s := Payload(a, b);
    PayloadLength(a, b);
    PayloadChars(a, b, 22 + |a|);
    HeadFacts();
    forall k | 22 <= k < 22 + |a|
      ensures s[k] != ','
    {
      PayloadNumberChar(a, b, k);
    }
    IndexOfChar(s, ',', 22, 22 + |a|);
  }

  lemma PayloadLonKey(a: string, b: string)
    requires IsNumeral(a)
    ensures IndexOf(Payload(a, b), LonKey, 0) == 23 + |a|
  {
    var s := Payload(a, b);
    HeadFacts();
    assert s[23 + |a|..29 + |a|] == LonKey by {
      forall j | 0 <= j < 6
        ensures s[23 + |a| + j] == LonKey[j]
      {
        PayloadChars(a, b, 23 + |a| + j);
      }
    }
    forall k | 0 <= k < 23 + |a|
      ensures !MatchAt(s, LonKey, k)
    {
      PayloadChars(a, b, k);
      PayloadChars(a, b, k + 1);
      PayloadChars(a, b, k + 2);
      if 22 <= k < 22 + |a| {
        assert IsNumeralChar(a[k - 22]);
        Mismatch(s, LonKey, k, 0);
      } else if s[k] != '"' {
        Mismatch(s, LonKey, k, 0);
      } else if s[k + 1] != 'l' {
        Mismatch(s, LonKey, k, 1);
      } else {
        Mismatch(s, LonKey, k, 2);
      }
    }
    IndexOfIs(s, LonKey, 0, 23 + |a|);
  }

  lemma PayloadClose(a: string, b: string)
    requires IsNumeral(a) && IsNumeral(b)
    ensures IndexOf(Payload(a, b), "}", 29 + |a|) == 29 + |a| + |b|
  {
    var s := Payload(a, b);
    var m, e := 29 + |a|, 29 + |a| + |b|;
    PayloadLength(a, b);
    PayloadChars(a, b, e);
    forall k | m <= k < e
      ensures s[k] != '}'
    {
      PayloadNumberChar(a, b, k);
    }
    IndexOfChar(s, '}', m, e);
  }

  lemma PayloadSlices(a: string, b: string)
    ensures Payload(a, b)[22..22 + |a|] == a
    ensures Payload(a, b)[29 + |a|..29 + |a| + |b|] == b
  {
    HeadFacts();
    var s := Payload(a, b);
    assert s == Head + a + Middle + b + "}";
  }

  /** The page’s own click text reads back as the numbers it carries. */
  lemma PayloadRoundTrip(a: string, b: string, x: real, y: real, parse: string -> Option<real>)
    requires IsNumeral(a) && IsNumeral(b)
    requires parse(a) == Some(x) && parse(b) == Some(y)
    ensures ParseClick(Some(Payload(a, b)), parse) == Some((x, y))
  {
    var s := Payload(a, b);
    var latEnd, lonStart, lonEnd := 22 + |a|, 29 + |a|, 29 + |a| + |b|;
    PayloadLength(a, b);
    assert ReadNumbers(s, 22, latEnd, lonStart, lonEnd, parse) == Some((x, y)) by {
      PayloadSlices(a, b);
      ReadNumbersOk(s, 22, latEnd, lonStart, lonEnd, x, y, parse);
    }
    assert ReadClick(s, parse) == ReadNumbers(s, 22, latEnd, lonStart, lonEnd, parse) by {
      PayloadLatKey(a, b);
      PayloadComma(a, b);
      PayloadLonKey(a, b);
      PayloadClose(a, b);
      assert LatEnd(s, 22) == latEnd;
      ReadClickUnfold(s, parse, 22, lonStart, latEnd, lonEnd);
    }
    PayloadFrame(a, b);
    ParseClickGuards(s, parse);
  }
}
