/** The web client’s map store: the view center `[lat, lng]`, the zoom, the
    last picked point and which field the next map pick fills. */
module MapStore {
  import opened Wrappers
  import opened WebTypes

  /** The values of `waitingForInput`. */
  datatype Slot = OriginSlot | DestinationSlot | WaypointSlot

  datatype MapState = MapState(
    center: (real, real),
    zoom: real,
    selectedPoint: Option<Place>,
    waitingForInput: Option<Slot>)

  /** The default center and zoom when the environment sets none. */
  const DefaultCenter: (real, real) := (38.7223, -9.1393)
  const DefaultZoom: real := 13.0

  function Initial(): (s: MapState)
    ensures s.center == DefaultCenter && s.zoom == DefaultZoom
    ensures s.selectedPoint.None? && s.waitingForInput.None?
  {
    MapState(DefaultCenter, DefaultZoom, None, None)
  }

  function SetCenter(s: MapState, c: (real, real)): (s': MapState)
    ensures s'.center == c
    ensures s' == s.(center := c)
  {
    s.(center := c)
  }

  /** `setZoom`: stored as given, with no clamp. */
  function SetZoom(s: MapState, z: real): (s': MapState)
    ensures s'.zoom == z
    ensures s' == s.(zoom := z)
  {
    s.(zoom := z)
  }

  function SetSelectedPoint(s: MapState, p: Option<Place>): (s': MapState)
    ensures s'.selectedPoint == p
    ensures s' == s.(selectedPoint := p)
  {
    s.(selectedPoint := p)
  }

  function SetWaitingForInput(s: MapState, k: Option<Slot>): (s': MapState)
    ensures s'.waitingForInput == k
    ensures s' == s.(waitingForInput := k)
  {
    s.(waitingForInput := k)
  }

  function ClearWaitingForInput(s: MapState): (s': MapState)
    ensures s'.waitingForInput.None?
    ensures s' == s.(waitingForInput := None)
  {
    s.(waitingForInput := None)
  }

  /** Clearing the wait is setting it to null, and doing it twice is doing
      it once. */
  lemma ClearWaitingIsSetNone(s: MapState)
    ensures ClearWaitingForInput(s) == SetWaitingForInput(s, None)
    ensures ClearWaitingForInput(ClearWaitingForInput(s)) == ClearWaitingForInput(s)
  {
  }

  /** Setters of different fields commute. */
  lemma SettersCommute(s: MapState, c: (real, real), z: real, p: Option<Place>)
    ensures SetZoom(SetCenter(s, c), z) == SetCenter(SetZoom(s, z), c)
    ensures SetSelectedPoint(SetCenter(s, c), p) == SetCenter(SetSelectedPoint(s, p), c)
  {
  }
}
