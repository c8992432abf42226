/** The web client’s shared types: a location with optional labels, the
    four transport modes and a computed route. Coordinates are `real`. */
module WebTypes {
  import opened Wrappers

  /** `TransportMode`; Transit has no routing profile of its own. */
  datatype WebMode = Driving | Bicycling | Walking | Transit

  const AllWebModes: seq<WebMode> := [Driving, Bicycling, Walking, Transit]

  /** The string value of each enum member. */
  function ModeValue(m: WebMode): string {
    match m
    case Driving => "driving"
    case Bicycling => "cycling"
    case Walking => "walking"
    case Transit => "transit"
  }

  /** Distinct modes have distinct string values. */
  lemma ModeValueInjective(a: WebMode, b: WebMode)
    ensures ModeValue(a) == ModeValue(b) <==> a == b
  {
    if a != b {
      match a
      case Driving => assert ModeValue(a)[0] == 'd' && ModeValue(b)[0] != 'd';
      case Bicycling => assert ModeValue(a)[0] == 'c' && ModeValue(b)[0] != 'c';
      case Walking => assert ModeValue(a)[0] == 'w' && ModeValue(b)[0] != 'w';
      case Transit => assert ModeValue(a)[0] == 't' && ModeValue(b)[0] != 't';
    }
  }

  /** `Location`: `name` and `address` are optional. */
  datatype Place = Place(lat: real, lng: real, name: Option<string>, address: Option<string>)

  /** `{ lat, lng }` */
  function PlaceAt(lat: real, lng: real): (p: Place)
    ensures p.lat == lat && p.lng == lng
    ensures p.name.None? && p.address.None?
  {
    Place(lat, lng, None, None)
  }

  /** `{ lat, lng, name }` */
  function NamedPlace(lat: real, lng: real, name: Option<string>): (p: Place)
    ensures p.lat == lat && p.lng == lng
    ensures p.name == name && p.address.None?
  {
    Place(lat, lng, name, None)
  }

  /** The placeholder for a stop not yet chosen: `lat === 0 && lng === 0`. */
  predicate IsEmptyStop(p: Place) {
    p.lat == 0.0 && p.lng == 0.0
  }

  /** `waypoints.findIndex(wp => wp.lat === 0 && wp.lng === 0)`: the first
      empty stop, or -1. */
  function FirstEmptyStop(ws: seq<Place>): (r: int)
    ensures -1 <= r < |ws|
    ensures r >= 0 ==> IsEmptyStop(ws[r]) && forall j | 0 <= j < r :: !IsEmptyStop(ws[j])
    ensures r == -1 <==> forall j | 0 <= j < |ws| :: !IsEmptyStop(ws[j])
  {
    if |ws| == 0 then -1
    else if IsEmptyStop(ws[0]) then 0
    else
      var k := FirstEmptyStop(ws[1..]);
      assert forall j | 1 <= j < |ws| :: ws[j] == ws[1..][j - 1];
      if k == -1 then -1 else k + 1
  }

  /** `waypoints.filter(wp => wp.lat !== 0 || wp.lng !== 0).length`: the
      stops already chosen. */
  function CountFilled(ws: seq<Place>): (n: nat)
    ensures n <= |ws|
  {
    if |ws| == 0 then 0
    else CountFilled(ws[..|ws| - 1]) + (if IsEmptyStop(ws[|ws| - 1]) then 0 else 1)
  }

  lemma {:induction false} CountFilledAppend(ws: seq<Place>, extra: seq<Place>)
    ensures CountFilled(ws + extra) == CountFilled(ws) + CountFilled(extra)
    decreases |extra|
  {
    if |extra| > 0 {
      var e := extra[..|extra| - 1];
      assert (ws + extra)[..|ws + extra| - 1] == ws + e;
      CountFilledAppend(ws, e);
    } else {
      assert ws + extra == ws;
    }
  }

  /** Replacing one stop changes the count only by what was there and what
      comes in. */
  lemma {:induction false} CountFilledUpdate(ws: seq<Place>, i: nat, p: Place)
    requires i < |ws|
    ensures CountFilled(ws[i := p]) ==
      CountFilled(ws) - (if IsEmptyStop(ws[i]) then 0 else 1) + (if IsEmptyStop(p) then 0 else 1)
  {
    var n := |ws| - 1;
    if i == n {
      assert ws[i := p][..n] == ws[..n];
    } else {
      CountFilledUpdate(ws[..n], i, p);
      assert ws[i := p][..n] == ws[..n][i := p];
    }
  }

  /** `xs.slice(1, -1)`: everything but the first and the last. */
  function Interior<T>(xs: seq<T>): (r: seq<T>)
    ensures |r| == if |xs| <= 2 then 0 else |xs| - 2
    ensures forall i | 0 <= i < |r| :: r[i] == xs[i + 1]
  {
    if |xs| <= 2 then [] else xs[1..|xs| - 1]
  }

  /** A GeoJSON position, `[lng, lat]`. */
  type Position = (real, real)

  /** `Route`: `geometry` is the GeoJSON LineString’s coordinates. */
  datatype WebRoute = WebRoute(
    waypoints: seq<Place>,
    totalDistance: real,   // metres
    totalDuration: real,   // seconds
    transportMode: WebMode,
    geometry: seq<Position>,
    instructions: Option<seq<string>>)
}
