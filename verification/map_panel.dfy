/** The Swing map panel `MapPanel`: a centre, a zoom level, the points the
    user clicked and the route on display. Its projection is the panel’s
    linear stand-in, 0.001 degrees per pixel about the centre. The panel’s
    size comes from Swing and is part of the state here. */
module MapPanel {
  import opened Wrappers
  import opened Numeric
  import opened Locations
  import opened Routes

  datatype Panel = Panel(
    selected: seq<Location>,
    route: Option<Route>,
    center: Location,
    zoom: int,
    width: nat,
    height: nat,
    hasListener: bool)

  const MinZoom: int := 1
  const MaxZoom: int := 18

  /** The constructor: centred on Lisbon at zoom 13, nothing selected, no
      route, no listener. */
  function NewPanel(width: nat, height: nat): (p: Panel)
    ensures p.center.latitude == 38.7223 && p.center.longitude == -9.1393
    ensures p.zoom == 13 && p.selected == [] && p.route.None? && !p.hasListener
  {
    Panel([], None, At(38.7223, -9.1393), 13, width, height, false)
  }

  /** A point on the screen. */
  datatype Pixel = Pixel(x: int, y: int)

  /** `screenToLocation`: one pixel is 0.001 degrees, y grows downwards,
      the half-sizes are integer halves. */
  function ScreenToLocation(p: Panel, x: int, y: int): (l: Location)
    ensures l.latitude == p.center.latitude + (p.height / 2 - y) as real * 0.001
    ensures l.longitude == p.center.longitude + (x - p.width / 2) as real * 0.001
    ensures l.name == "" && l.address == ""
  {
    At(p.center.latitude + (p.height / 2 - y) as real * 0.001, p.center.longitude + (x - p.width / 2) as real * 0.001)
  }

  /** `locationToScreen`: the inverse map, each coordinate cast to `int`
      (towards zero). */
  function LocationToScreen(p: Panel, l: Location): (q: Pixel)
    ensures var u := (l.longitude - p.center.longitude) * 1000.0 + (p.width / 2) as real;
      Abs(q.x as real - u) < 1.0 && Abs(q.x as real) <= Abs(u)
    ensures var v := (p.height / 2) as real - (l.latitude - p.center.latitude) * 1000.0;
      Abs(q.y as real - v) < 1.0 && Abs(q.y as real) <= Abs(v)
  {
    Pixel(Trunc((l.longitude - p.center.longitude) * 1000.0 + (p.width / 2) as real),
          Trunc((p.height / 2) as real - (l.latitude - p.center.latitude) * 1000.0))
  }

  /** A pixel survives the trip to a location and back. */
  lemma ScreenRoundTrip(p: Panel, x: int, y: int)
    ensures LocationToScreen(p, ScreenToLocation(p, x, y)) == Pixel(x, y)
  {
    var l := ScreenToLocation(p, x, y);
    assert (l.longitude - p.center.longitude) * 1000.0 + (p.width / 2) as real == x as real;
    assert (p.height / 2) as real - (l.latitude - p.center.latitude) * 1000.0 == y as real;
  }

  /** A location taken to its pixel and back moves by less than one pixel,
      0.001 degrees, in each coordinate. */
  lemma LocationRoundTrip(p: Panel, l: Location)
    ensures var q := LocationToScreen(p, l);
      var back := ScreenToLocation(p, q.x, q.y);
      && Abs(back.longitude - l.longitude) < 0.001
      && Abs(back.latitude - l.latitude) < 0.001
  {
    var u := (l.longitude - p.center.longitude) * 1000.0 + (p.width / 2) as real;
    var v := (p.height / 2) as real - (l.latitude - p.center.latitude) * 1000.0;
    var q := LocationToScreen(p, l);
    assert q.x == Trunc(u) && q.y == Trunc(v);
    var back := ScreenToLocation(p, q.x, q.y);
    assert back.longitude - l.longitude == (Trunc(u) as real - u) * 0.001;
    assert back.latitude - l.latitude == (v - Trunc(v) as real) * 0.001;
  }

  /** `handleMapClick`: the clicked location goes to the end of the
      selection, and the listener, if any, hears of it once. */
  function Click(p: Panel, x: int, y: int): (r: (Panel, seq<Location>))
    ensures r.0.selected == p.selected + [ScreenToLocation(p, x, y)]
    ensures r.1 == if p.hasListener then [ScreenToLocation(p, x, y)] else []
    ensures r.0 == p.(selected := r.0.selected)
  {
    var l := ScreenToLocation(p, x, y);
    (p.(selected := p.selected + [l]), if p.hasListener then [l] else [])
  }

  /** `setZoomLevel`: the value clamped into [1, 18]. */
  function SetZoomLevel(p: Panel, z: int): (r: Panel)
    ensures MinZoom <= r.zoom <= MaxZoom
    ensures MinZoom <= z <= MaxZoom ==> r.zoom == z
    ensures z < MinZoom ==> r.zoom == MinZoom
    ensures z > MaxZoom ==> r.zoom == MaxZoom
    ensures r == p.(zoom := r.zoom)
  {
    var capped := if z < MaxZoom then z else MaxZoom;
    p.(zoom := if capped > MinZoom then capped else MinZoom)
  }

  function SetMapCenter(p: Panel, c: Location): (r: Panel)
    ensures r.center == c && r == p.(center := c)
  {
    p.(center := c)
  }

  function SetRoute(p: Panel, route: Option<Route>): (r: Panel)
    ensures r.route == route && r == p.(route := route)
  {
    p.(route := route)
  }

  function ClearRoute(p: Panel): (r: Panel)
    ensures r.route.None? && r == p.(route := None)
  {
    p.(route := None)
  }

  function ClearSelectedPoints(p: Panel): (r: Panel)
    ensures r.selected == [] && r == p.(selected := [])
  {
    p.(selected := [])
  }

  function SetPointSelectionListener(p: Panel, present: bool): (r: Panel)
    ensures r.hasListener == present && r == p.(hasListener := present)
  {
    p.(hasListener := present)
  }

  /** Each click adds exactly one point and clearing removes them all: the
      selection after a run of clicks is the clicked points in order. */
  lemma ClicksAccumulate(p: Panel, x1: int, y1: int, x2: int, y2: int)
    ensures var q := Click(Click(ClearSelectedPoints(p), x1, y1).0, x2, y2).0;
      q.selected == [ScreenToLocation(p, x1, y1), ScreenToLocation(p, x2, y2)]
  {
  }

  /** The later of two zoom settings wins, and clamping twice is clamping
      once. */
  lemma SetZoomLevelIdempotent(p: Panel, z: int)
    ensures SetZoomLevel(SetZoomLevel(p, z), SetZoomLevel(p, z).zoom) == SetZoomLevel(p, z)
  {
  }

  datatype Segment = Segment(from: Pixel, to: Pixel)

  /** The segments `drawCurrentRoute` draws: none for no route or an empty
      one, and otherwise one per consecutive pair of waypoints. */
  method RouteSegments(p: Panel) returns (segs: seq<Segment>)
    ensures p.route.None? || |p.route.value.waypoints| < 2 ==> segs == []
    ensures p.route.Some? && |p.route.value.waypoints| >= 2 ==>
      var ws := p.route.value.waypoints;
      && |segs| == |ws| - 1
      && forall k | 0 <= k < |segs| :: segs[k] == Segment(LocationToScreen(p, ws[k]), LocationToScreen(p, ws[k + 1]))
  {
    segs := [];
    if p.route.None? || IsEmpty(p.route.value) {
      return;
    }
    var ws := p.route.value.waypoints;
    if |ws| >= 2 {
      var prev := LocationToScreen(p, ws[0]);
      var i := 1;
      while i < |ws|
        invariant 1 <= i <= |ws|
        invariant prev == LocationToScreen(p, ws[i - 1])
        invariant |segs| == i - 1
        invariant forall k | 0 <= k < |segs| :: segs[k] == Segment(LocationToScreen(p, ws[k]), LocationToScreen(p, ws[k + 1]))
      {
        var current := LocationToScreen(p, ws[i]);
        segs := segs + [Segment(prev, current)];
        prev := current;
        i := i + 1;
      }
    }
  }
}
