/** The search panel: a search field for the origin, the destination and
    each stop, plus a blank stop field while a stop is being picked. The text
    drives the shared search store; picking a result, or asking to pick on
    the map, writes the route and map stores. */
module LocationSearch {
  import opened Wrappers
  import opened WebTypes
  import opened RouteStore
  import opened MapStore
  import opened SearchStore

  /** The stores the panel consults and updates. */
  datatype Screen = Screen(view: MapState, stops: RouteState, search: SearchState)

  /** Which search field: the stop fields are indexed by position. */
  datatype Field = OriginField | DestinationField | StopField(index: nat) | ExtraStopField

  /** One field’s own state: the typed text and whether its list is open. */
  datatype FieldState = FieldState(input: string, expanded: bool)

  /** The zoom a pick or a map-pick request sets. */
  const PickZoom: real := 15.0

  /** The most stops the add button allows, counting blank ones. */
  const MaxStops: nat := 5

  /** The `type` a field passes to `setWaitingForInput`. */
  function FieldSlot(f: Field): (k: Slot)
    ensures k == OriginSlot <==> f == OriginField
    ensures k == DestinationSlot <==> f == DestinationField
  {
    match f
    case OriginField => OriginSlot
    case DestinationField => DestinationSlot
    case _ => WaypointSlot
  }

  // ---------------------------------------------------------------------
  // Typing

  /** JavaScript `s.length`: UTF-16 code units, two for a character beyond
      the Basic Multilingual Plane. */
  function JsLength(s: string): (n: nat)
    ensures |s| <= n <= 2 * |s|
  {
    if |s| == 0 then 0
    else JsLength(s[..|s| - 1]) + (if s[|s| - 1] as int > 0xFFFF then 2 else 1)
  }

  /** `handleSearch`, after `onChange` opens the list: a text longer than
      two units becomes the shared query; a shorter one clears the search. */
  function Edit(fs: FieldState, ss: SearchState, value: string): (r: (FieldState, SearchState))
    ensures r.0 == FieldState(value, true)
    ensures JsLength(value) > 2 ==> r.1 == ss.(query := value)
    ensures JsLength(value) <= 2 ==> r.1 == SearchStore.Initial()
  {
    (FieldState(value, true), if JsLength(value) > 2 then SetQuery(ss, value) else Clear(ss))
  }

  /** `useGeocoding`’s enabling condition. */
  predicate GeocodingEnabled(fs: FieldState, ss: SearchState) {
    JsLength(ss.query) > 2 && fs.expanded
  }

  /** After an edit the geocoder runs exactly when the typed text is longer
      than two units, and then on that text. */
  lemma EditEnablesGeocoding(fs: FieldState, ss: SearchState, value: string)
    ensures var (fs', ss') := Edit(fs, ss, value);
      && (GeocodingEnabled(fs', ss') <==> JsLength(value) > 2)
      && (GeocodingEnabled(fs', ss') ==> ss'.query == value)
  {
  }

  // ---------------------------------------------------------------------
  // Which fields are on screen

  /** A stop field is rendered when there is an origin and the stop is
      chosen, or blank while a stop is being picked. */
  predicate StopShown(sc: Screen, i: int) {
    && sc.stops.origin.Some?
    && 0 <= i < |sc.stops.waypoints|
    && !(IsEmptyStop(sc.stops.waypoints[i]) && sc.view.waitingForInput != Some(WaypointSlot))
  }

  /** The extra blank stop field: shown while a stop is being picked and no
      stop is blank. */
  predicate ExtraShown(sc: Screen) {
    && sc.stops.origin.Some?
    && sc.view.waitingForInput == Some(WaypointSlot)
    && forall j | 0 <= j < |sc.stops.waypoints| :: !IsEmptyStop(sc.stops.waypoints[j])
  }

  predicate Shown(sc: Screen, f: Field) {
    match f
    case OriginField => true
    case DestinationField => true
    case StopField(i) => StopShown(sc, i)
    case ExtraStopField => ExtraShown(sc)
  }

  /** While a stop is being picked under an origin, there is always a blank
      stop field to type into: a blank stop, or else the extra field, never
      both. */
  lemma BlankStopFieldAvailable(sc: Screen)
    requires sc.stops.origin.Some? && sc.view.waitingForInput == Some(WaypointSlot)
    ensures ExtraShown(sc) <==> !exists i | 0 <= i < |sc.stops.waypoints| :: IsEmptyStop(sc.stops.waypoints[i])
    ensures !ExtraShown(sc) ==> exists i :: StopShown(sc, i) && IsEmptyStop(sc.stops.waypoints[i])
  {
  }

  /** Blank stops are on screen only while a stop is being picked. */
  lemma BlankStopsHidden(sc: Screen, i: int)
    requires 0 <= i < |sc.stops.waypoints| && IsEmptyStop(sc.stops.waypoints[i])
    ensures StopShown(sc, i) <==> sc.stops.origin.Some? && sc.view.waitingForInput == Some(WaypointSlot)
  {
  }

  // ---------------------------------------------------------------------
  // The fields’ callbacks

  /** `onLocationSelect` of each field. */
  function OnSelect(sc: Screen, f: Field, loc: Place): (sc': Screen)
    requires Shown(sc, f)
    ensures sc'.search == sc.search
  {
    match f
    case OriginField => sc.(stops := SetOrigin(sc.stops, Some(loc)))
    case DestinationField => sc.(stops := SetDestination(sc.stops, Some(loc)))
    case StopField(i) =>
      sc.(stops := SetWaypoints(sc.stops, sc.stops.waypoints[i := loc]), view := ClearWaitingForInput(sc.view))
    case ExtraStopField =>
      sc.(stops := AddWaypoint(sc.stops, loc), view := ClearWaitingForInput(sc.view))
  }

  /** `onClearLocation` of each field. */
  function OnClear(sc: Screen, f: Field): (sc': Screen)
    requires Shown(sc, f)
    ensures sc'.search == sc.search
  {
    match f
    case OriginField => sc.(stops := SetOrigin(sc.stops, None))
    case DestinationField => sc.(stops := SetDestination(sc.stops, None))
    case StopField(i) =>
      sc.(stops := SetWaypoints(sc.stops, sc.stops.waypoints[i := PlaceAt(0.0, 0.0)]),
          view := SetWaitingForInput(sc.view, Some(WaypointSlot)))
    case ExtraStopField => sc.(view := ClearWaitingForInput(sc.view))
  }

  /** Picking for stop i replaces that stop alone and ends the wait;
      clearing it blanks that stop alone and waits for a map pick. Neither
      touches the endpoints or the route. */
  lemma StopCallbacks(sc: Screen, i: nat, loc: Place)
    requires StopShown(sc, i)
    ensures var s1 := OnSelect(sc, StopField(i), loc);
      && s1.stops == sc.stops.(waypoints := sc.stops.waypoints[i := loc])
      && s1.view == sc.view.(waitingForInput := None)
    ensures var s2 := OnClear(sc, StopField(i));
      && |s2.stops.waypoints| == |sc.stops.waypoints|
      && IsEmptyStop(s2.stops.waypoints[i])
      && (forall j | 0 <= j < |sc.stops.waypoints| && j != i :: s2.stops.waypoints[j] == sc.stops.waypoints[j])
      && s2.stops == sc.stops.(waypoints := s2.stops.waypoints)
      && s2.view == sc.view.(waitingForInput := Some(WaypointSlot))
      && StopShown(s2, i)
  {
  }

  /** Picking in the extra field appends, and ends the wait. */
  lemma ExtraSelectAppends(sc: Screen, loc: Place)
    requires ExtraShown(sc)
    ensures OnSelect(sc, ExtraStopField, loc).stops.waypoints == sc.stops.waypoints + [loc]
    ensures OnSelect(sc, ExtraStopField, loc).view.waitingForInput.None?
  {
  }

  // ---------------------------------------------------------------------
  // Field actions

  /** `handleSelectLocation`: with `shouldPanMap` the view centres on the
      pick at zoom 15; the field is emptied and closed, the search cleared,
      and then the field’s callback runs. */
  function Select(sc: Screen, fs: FieldState, f: Field, loc: Place, pan: bool): (r: (Screen, FieldState))
    requires Shown(sc, f)
    ensures r.1 == FieldState("", false)
    ensures r.0.search == SearchStore.Initial()
    ensures pan ==> r.0.view.center == (loc.lat, loc.lng) && r.0.view.zoom == PickZoom
    ensures !pan ==> r.0.view.center == sc.view.center && r.0.view.zoom == sc.view.zoom
  {
    var view := if pan then SetZoom(SetCenter(sc.view, (loc.lat, loc.lng)), PickZoom) else sc.view;
    var sc1 := sc.(view := view, search := Clear(sc.search));
    assert Shown(sc1, f);
    (OnSelect(sc1, f, loc), FieldState("", false))
  }

  /** Selecting the origin or destination stores it and drops the route;
      the stops and the wait are kept. */
  lemma SelectEndpoint(sc: Screen, fs: FieldState, loc: Place, pan: bool)
    ensures var sc' := Select(sc, fs, OriginField, loc, pan).0;
      sc'.stops == sc.stops.(origin := Some(loc), route := None) && sc'.view.waitingForInput == sc.view.waitingForInput
    ensures var sc' := Select(sc, fs, DestinationField, loc, pan).0;
      sc'.stops == sc.stops.(destination := Some(loc), route := None) && sc'.view.waitingForInput == sc.view.waitingForInput
  {
  }

  /** `handleAddToMap`: the field is cleared through its callback, the map
      waits for a pick of the field’s type, and the zoom is set to 15 about
      the current center. */
  function AddToMap(sc: Screen, f: Field): (sc': Screen)
    requires Shown(sc, f)
    ensures sc'.view.waitingForInput == Some(FieldSlot(f))
    ensures sc'.view.zoom == PickZoom && sc'.view.center == sc.view.center
    ensures sc'.view.selectedPoint == sc.view.selectedPoint
    ensures sc'.search == sc.search
  {
    var sc1 := OnClear(sc, f);
    var view := SetZoom(SetCenter(SetWaitingForInput(sc1.view, Some(FieldSlot(f))), sc1.view.center), PickZoom);
    sc1.(view := view)
  }

  /** Asking to pick an endpoint on the map forgets the current one, so the
      next map click fills it. */
  lemma AddToMapClearsEndpoint(sc: Screen)
    ensures AddToMap(sc, OriginField).stops.origin.None?
    ensures AddToMap(sc, DestinationField).stops.destination.None?
    ensures AddToMap(sc, OriginField).stops.route.None?
  {
  }

  /** The add-stop button is shown under an origin and enabled below five
      stops, blank ones included. */
  predicate AddStopEnabled(sc: Screen) {
    sc.stops.origin.Some? && |sc.stops.waypoints| < MaxStops
  }

  /** The add-stop button: append a blank stop and wait for a stop pick. */
  function AddStop(sc: Screen): (sc': Screen)
    requires AddStopEnabled(sc)
    ensures sc'.stops == sc.stops.(waypoints := sc.stops.waypoints + [PlaceAt(0.0, 0.0)])
    ensures sc'.view == sc.view.(waitingForInput := Some(WaypointSlot))
  {
    sc.(stops := AddWaypoint(sc.stops, PlaceAt(0.0, 0.0)), view := SetWaitingForInput(sc.view, Some(WaypointSlot)))
  }

  /** The button never takes the list past five, and the blank stop it
      adds is on screen in place of the extra field. */
  lemma AddStopEffect(sc: Screen)
    requires AddStopEnabled(sc)
    ensures |AddStop(sc).stops.waypoints| <= MaxStops
    ensures StopShown(AddStop(sc), |sc.stops.waypoints|)
    ensures !ExtraShown(AddStop(sc))
  {
    var ws' := AddStop(sc).stops.waypoints;
    assert IsEmptyStop(ws'[|sc.stops.waypoints|]);
  }

  /** The remove button of stop i. */
  function RemoveStop(sc: Screen, i: nat): (sc': Screen)
    requires StopShown(sc, i)
    ensures sc'.stops.waypoints == sc.stops.waypoints[..i] + sc.stops.waypoints[i + 1..]
    ensures sc'.stops.route.None? && sc'.view == sc.view
  {
    WithoutIndexSlices(sc.stops.waypoints, i);
    sc.(stops := RemoveWaypoint(sc.stops, i))
  }
}
