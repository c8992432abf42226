/** The web map’s event handlers: a click picks a point for whichever
    field is waiting (or toggles between origin and destination), `moveend`
    mirrors the view center into the store, and the bounds enforcer pulls a
    dragged center back into range. The handlers act on the two stores. */
module MapEvents {
  import opened Wrappers
  import opened Numeric
  import opened WebTypes
  import opened MapStore
  import opened RouteStore

  // ---------------------------------------------------------------------
  // Coordinates of a click

  /** `while (x > 180) x -= 360`, with the number of turns taken. */
  function WrapDown(x: real): (r: (real, nat))
    ensures r.0 == x - 360.0 * r.1 as real
    ensures r.0 <= 180.0
    ensures x <= 180.0 ==> r.1 == 0
    ensures x > 180.0 ==> r.0 > -180.0
    decreases if x > 180.0 then (x - 180.0).Floor + 1 else 0
  {
    if x > 180.0 then
      var (y, k) := WrapDown(x - 360.0);
      (y, k + 1)
    else (x, 0)
  }

  /** `while (x < -180) x += 360`, with the number of turns taken. */
  function WrapUp(x: real): (r: (real, nat))
    ensures r.0 == x + 360.0 * r.1 as real
    ensures r.0 >= -180.0
    ensures x >= -180.0 ==> r.1 == 0
    ensures x < -180.0 ==> r.0 < 180.0
    decreases if x < -180.0 then (-180.0 - x).Floor + 1 else 0
  {
    if x < -180.0 then
      var (y, k) := WrapUp(x + 360.0);
      (y, k + 1)
    else (x, 0)
  }

  /** Whole turns the normalisation adds to a longitude (negative when it
      subtracts). */
  function LngTurns(x: real): int {
    WrapUp(WrapDown(x).0).1 - WrapDown(x).1
  }

  /** The two loops in sequence: the same meridian, in [-180, 180]; a
      longitude already there is left alone. */
  function NormalizeLng(x: real): (r: real)
    ensures -180.0 <= r <= 180.0
    ensures r == x + 360.0 * LngTurns(x) as real
    ensures -180.0 <= x <= 180.0 ==> r == x
  {
    WrapUp(WrapDown(x).0).0
  }

  /** Normalising twice is normalising once. */
  lemma NormalizeLngIdempotent(x: real)
    ensures NormalizeLng(NormalizeLng(x)) == NormalizeLng(x)
  {
  }

  /** The two loops as written. */
  method NormalizeLngLoop(lng: real) returns (r: real)
    ensures r == NormalizeLng(lng)
  {
    r := lng;
    ghost var down := 0;
    while r > 180.0
      invariant r == lng - 360.0 * down as real
      invariant WrapDown(lng) == (WrapDown(r).0, down + WrapDown(r).1)
      decreases if r > 180.0 then (r - 180.0).Floor + 1 else 0
    {
      r := r - 360.0;
      down := down + 1;
    }
    ghost var up := 0;
    ghost var mid := r;
    while r < -180.0
      invariant r == mid + 360.0 * up as real
      invariant WrapUp(mid).0 == WrapUp(r).0
      decreases if r < -180.0 then (-180.0 - r).Floor + 1 else 0
    {
      r := r + 360.0;
      up := up + 1;
    }
  }

  /** The point a click at (lat, lng) picks: latitude clamped to
      [-85, 85], longitude normalised. */
  function ClickPlace(lat: real, lng: real): (p: Place)
    ensures -85.0 <= p.lat <= 85.0 && -180.0 <= p.lng <= 180.0
    ensures p.name.None? && p.address.None?
    ensures -85.0 <= lat <= 85.0 ==> p.lat == lat
    ensures -180.0 <= lng <= 180.0 ==> p.lng == lng
  {
    PlaceAt(ClampReal(lat, -85.0, 85.0), NormalizeLng(lng))
  }

  // ---------------------------------------------------------------------
  // Click

  /** The stores after picking `loc` and clearing the wait. */
  function Picked(ms: MapState, loc: Place): (ms': MapState)
    ensures ms' == ms.(selectedPoint := Some(loc), waitingForInput := None)
  {
    ClearWaitingForInput(SetSelectedPoint(ms, Some(loc)))
  }

  /** The `click` handler on the map and route stores. */
  function Click(ms: MapState, rs: RouteState, lat: real, lng: real): (r: (MapState, RouteState))
    ensures r.0.selectedPoint == Some(ClickPlace(lat, lng))
    ensures r.0.waitingForInput.None?
    ensures r.0 == ms.(selectedPoint := r.0.selectedPoint, waitingForInput := None)
  {
    var loc := ClickPlace(lat, lng);
    match ms.waitingForInput
    case Some(OriginSlot) => (Picked(ms, loc), SetOrigin(rs, Some(loc)))
    case Some(DestinationSlot) => (Picked(ms, loc), SetDestination(rs, Some(loc)))
    case Some(WaypointSlot) =>
      var i := FirstEmptyStop(rs.waypoints);
      if i != -1 then (Picked(ms, loc), SetWaypoints(rs, rs.waypoints[i := loc]))
      else (Picked(ms, loc), AddWaypoint(rs, loc))
    case None =>
      var ms' := SetSelectedPoint(ms, Some(loc));
      if rs.origin.None? then (ms', SetOrigin(rs, Some(loc)))
      else if rs.destination.None? then (ms', SetDestination(rs, Some(loc)))
      else (ms', SetDestination(SetOrigin(rs, Some(loc)), None))
  }

  /** Waiting for an endpoint: the click sets it, drops the route, and
      changes nothing else in the route store. */
  lemma ClickFillsEndpoint(ms: MapState, rs: RouteState, lat: real, lng: real)
    requires ms.waitingForInput == Some(OriginSlot) || ms.waitingForInput == Some(DestinationSlot)
    ensures var loc := ClickPlace(lat, lng);
      var rs' := Click(ms, rs, lat, lng).1;
      if ms.waitingForInput == Some(OriginSlot) then rs' == rs.(origin := Some(loc), route := None)
      else rs' == rs.(destination := Some(loc), route := None)
  {
  }

  /** Waiting for a stop: the click fills the first empty stop, else
      appends one; the endpoints and the route are kept. */
  lemma ClickFillsStop(ms: MapState, rs: RouteState, lat: real, lng: real)
    requires ms.waitingForInput == Some(WaypointSlot)
    ensures var loc := ClickPlace(lat, lng);
      var rs' := Click(ms, rs, lat, lng).1;
      && rs' == rs.(waypoints := rs'.waypoints)
      && ((exists i | 0 <= i < |rs.waypoints| :: IsEmptyStop(rs.waypoints[i])) ==>
           var i := FirstEmptyStop(rs.waypoints);
           && 0 <= i && IsEmptyStop(rs.waypoints[i])
           && rs'.waypoints == rs.waypoints[i := loc]
           && (forall j | 0 <= j < i :: !IsEmptyStop(rs.waypoints[j]))
           && CountFilled(rs'.waypoints) == CountFilled(rs.waypoints) + (if IsEmptyStop(loc) then 0 else 1))
  {
    var i := FirstEmptyStop(rs.waypoints);
    if i != -1 {
      CountFilledUpdate(rs.waypoints, i, ClickPlace(lat, lng));
    }
  }

  /** With no empty stop the click appends, so the list grows by one. */
  lemma ClickAppendsStop(ms: MapState, rs: RouteState, lat: real, lng: real)
    requires ms.waitingForInput == Some(WaypointSlot)
    requires forall j | 0 <= j < |rs.waypoints| :: !IsEmptyStop(rs.waypoints[j])
    ensures Click(ms, rs, lat, lng).1.waypoints == rs.waypoints + [ClickPlace(lat, lng)]
  {
  }

  /** Not waiting: the click fills the origin if missing, else the
      destination if missing, else starts over with a new origin and no
      destination. Afterwards there is always an origin. */
  lemma ClickToggles(ms: MapState, rs: RouteState, lat: real, lng: real)
    requires ms.waitingForInput.None?
    ensures var loc := ClickPlace(lat, lng);
      var rs' := Click(ms, rs, lat, lng).1;
      && rs'.origin.Some?
      && rs'.route.None?
      && rs'.waypoints == rs.waypoints
      && (rs.origin.None? ==> rs'.origin == Some(loc) && rs'.destination == rs.destination)
      && (rs.origin.Some? && rs.destination.None? ==> rs'.origin == rs.origin && rs'.destination == Some(loc))
      && (rs.origin.Some? && rs.destination.Some? ==> rs'.origin == Some(loc) && rs'.destination.None?)
  {
  }

  /** From no endpoints, two plain clicks set the origin and then the
      destination; a third starts over. */
  lemma ThreeClicks(ms: MapState, rs: RouteState, a: (real, real), b: (real, real), c: (real, real))
    requires ms.waitingForInput.None? && rs.origin.None? && rs.destination.None?
    ensures var (ms1, rs1) := Click(ms, rs, a.0, a.1);
      var (ms2, rs2) := Click(ms1, rs1, b.0, b.1);
      var (ms3, rs3) := Click(ms2, rs2, c.0, c.1);
      && rs2.origin == Some(ClickPlace(a.0, a.1)) && rs2.destination == Some(ClickPlace(b.0, b.1))
      && rs3.origin == Some(ClickPlace(c.0, c.1)) && rs3.destination.None?
  {
  }

  /** The route survives a click only when a stop is being picked. */
  lemma ClickKeepsRouteIff(ms: MapState, rs: RouteState, lat: real, lng: real)
    requires rs.route.Some?
    ensures Click(ms, rs, lat, lng).1.route.Some? <==> ms.waitingForInput == Some(WaypointSlot)
  {
  }

  // ---------------------------------------------------------------------
  // moveend

  /** The `moveend` handler: while an update is in flight nothing happens;
      otherwise a center more than 0.0001 degrees away on either axis is
      stored and an update starts. Returns the store and the in-flight
      flag. */
  function MoveEnd(ms: MapState, updating: bool, lat: real, lng: real): (r: (MapState, bool))
    ensures updating ==> r == (ms, true)
    ensures !updating && (Abs(lat - ms.center.0) > 0.0001 || Abs(lng - ms.center.1) > 0.0001) ==>
      r == (ms.(center := (lat, lng)), true)
    ensures !updating && Abs(lat - ms.center.0) <= 0.0001 && Abs(lng - ms.center.1) <= 0.0001 ==>
      r == (ms, false)
  {
    if updating then (ms, true)
    else if Abs(lat - ms.center.0) > 0.0001 || Abs(lng - ms.center.1) > 0.0001 then
      (SetCenter(ms, (lat, lng)), true)
    else (ms, false)
  }

  /** The guard breaks the echo: once the store holds the view’s center,
      the same event (after the flag resets) changes nothing. */
  lemma MoveEndSettles(ms: MapState, lat: real, lng: real)
    ensures var ms1 := MoveEnd(ms, false, lat, lng).0;
      MoveEnd(ms1, false, lat, lng) == (ms1, false)
  {
  }

  // ---------------------------------------------------------------------
  // Bounds enforcer

  /** `handleDragEnd` as written: the `setCenter` calls it makes, in order.
      The latitude fix re-centres on the original longitude. */
  function DragEndCallsAsWritten(lat: real, lng: real): (calls: seq<(real, real)>)
    ensures |calls| <= 2
    ensures |calls| == 0 <==> -85.0 <= lat <= 85.0 && -180.0 <= lng <= 180.0
    ensures !(-85.0 <= lat <= 85.0) ==> calls[|calls| - 1] == (ClampReal(lat, -85.0, 85.0), lng)
    ensures -85.0 <= lat <= 85.0 && !(-180.0 <= lng <= 180.0) ==> calls == [(lat, ClampReal(lng, -180.0, 180.0))]
  {
    var newLng := ClampReal(lng, -180.0, 180.0);
    var newLat := ClampReal(lat, -85.0, 85.0);
    (if newLng != lng then [(lat, newLng)] else []) + (if newLat != lat then [(newLat, lng)] else [])
  }

  /** The handler with the latitude fix keeping the clamped longitude. */
  function DragEndCalls(lat: real, lng: real): (calls: seq<(real, real)>)
    ensures |calls| <= 2
    ensures |calls| == 0 <==> -85.0 <= lat <= 85.0 && -180.0 <= lng <= 180.0
    ensures |calls| > 0 ==> calls[|calls| - 1] == (ClampReal(lat, -85.0, 85.0), ClampReal(lng, -180.0, 180.0))
  {
    var newLng := ClampReal(lng, -180.0, 180.0);
    var newLat := ClampReal(lat, -85.0, 85.0);
    (if newLng != lng then [(lat, newLng)] else []) + (if newLat != lat then [(newLat, newLng)] else [])
  }

  /** The store after a sequence of `setCenter` calls. */
  function ApplyCenters(ms: MapState, calls: seq<(real, real)>): (ms': MapState)
    ensures ms' == ms.(center := ms'.center)
    ensures |calls| > 0 ==> ms'.center == calls[|calls| - 1]
    ensures |calls| == 0 ==> ms' == ms
  {
    if |calls| == 0 then ms else SetCenter(ApplyCenters(ms, calls[..|calls| - 1]), calls[|calls| - 1])
  }

  /** With the fix, a drag that ends out of range stores the clamped center,
      and one that ends in range stores nothing. */
  function DragEnd(ms: MapState, lat: real, lng: real): (ms': MapState)
    ensures -85.0 <= lat <= 85.0 && -180.0 <= lng <= 180.0 ==> ms' == ms
    ensures !(-85.0 <= lat <= 85.0 && -180.0 <= lng <= 180.0) ==>
      ms' == ms.(center := (ClampReal(lat, -85.0, 85.0), ClampReal(lng, -180.0, 180.0)))
  {
    ApplyCenters(ms, DragEndCalls(lat, lng))
  }

  /** As written, a drag whose latitude is out of range keeps its original
      longitude, in range or not. */
  function DragEndAsWritten(ms: MapState, lat: real, lng: real): (ms': MapState)
    ensures -85.0 <= lat <= 85.0 && -180.0 <= lng <= 180.0 ==> ms' == ms
    ensures !(-85.0 <= lat <= 85.0) ==> ms' == ms.(center := (ClampReal(lat, -85.0, 85.0), lng))
    ensures -85.0 <= lat <= 85.0 && !(-180.0 <= lng <= 180.0) ==>
      ms' == ms.(center := (lat, ClampReal(lng, -180.0, 180.0)))
  {
    ApplyCenters(ms, DragEndCallsAsWritten(lat, lng))
  }

  /** With the fix, a drag that ends out of range stores the clamped center,
      and one that ends in range stores nothing. */
  lemma DragEndClamps(ms: MapState, lat: real, lng: real)
    ensures var ms' := DragEnd(ms, lat, lng);
      var inRange := -85.0 <= lat <= 85.0 && -180.0 <= lng <= 180.0;
      && (inRange ==> ms' == ms)
      && (!inRange ==> ms' == ms.(center := (ClampReal(lat, -85.0, 85.0), ClampReal(lng, -180.0, 180.0))))
  {
  }

  /** As written, a drag that ends beyond both limits stores a center whose
      longitude is still out of range: the latitude fix undoes the
      longitude fix. */
  lemma DragEndAsWrittenEscapes(ms: MapState)
    ensures DragEndAsWritten(ms, 90.0, 200.0).center == (85.0, 200.0)
    ensures DragEnd(ms, 90.0, 200.0).center == (85.0, 180.0)
  {
    assert DragEndCallsAsWritten(90.0, 200.0) == [(90.0, 180.0), (85.0, 200.0)];
    assert DragEndCalls(90.0, 200.0) == [(90.0, 180.0), (85.0, 180.0)];
  }

  /** `handleMoveEnd` of the enforcer: a center whose longitude normalises
      more than 0.01 degrees away is moved onto the normalised meridian. */
  function BoundsMoveEnd(ms: MapState, lat: real, lng: real): (ms': MapState)
    ensures -180.0 <= lng <= 180.0 ==> ms' == ms
    ensures !(-180.0 <= lng <= 180.0) ==> ms' == ms.(center := (lat, NormalizeLng(lng))) && ms'.center.1 != lng
  {
    var normalized := NormalizeLng(lng);
    assert !(-180.0 <= lng <= 180.0) ==> LngTurns(lng) != 0;
    if Abs(normalized - lng) > 0.01 then SetCenter(ms, (lat, normalized)) else ms
  }
}
