/** The web client’s route store: the chosen endpoints and stops, the
    computed route, the mode and a loading flag. Every setter replaces only
    its own fields, and any change to the endpoints or stops that can stale
    the route clears it. */
module RouteStore {
  import opened Wrappers
  import opened WebTypes

  datatype RouteState = RouteState(
    origin: Option<Place>,
    destination: Option<Place>,
    waypoints: seq<Place>,
    route: Option<WebRoute>,
    transportMode: WebMode,
    isLoading: bool)

  function Initial(): (s: RouteState)
    ensures s.origin.None? && s.destination.None? && s.waypoints == []
    ensures s.route.None? && s.transportMode == Driving && !s.isLoading
  {
    RouteState(None, None, [], None, Driving, false)
  }

  /** `setOrigin`: stores the value, which may be null, and drops the route. */
  function SetOrigin(s: RouteState, l: Option<Place>): (s': RouteState)
    ensures s'.origin == l && s'.route.None?
    ensures s' == s.(origin := l, route := None)
  {
    s.(origin := l, route := None)
  }

  /** `setDestination`: stores the value and drops the route. */
  function SetDestination(s: RouteState, l: Option<Place>): (s': RouteState)
    ensures s'.destination == l && s'.route.None?
    ensures s' == s.(destination := l, route := None)
  {
    s.(destination := l, route := None)
  }

  /** `setWaypoints`: replaces the list and keeps the route. */
  function SetWaypoints(s: RouteState, ws: seq<Place>): (s': RouteState)
    ensures s'.waypoints == ws && s'.route == s.route
    ensures s' == s.(waypoints := ws)
  {
    s.(waypoints := ws)
  }

  /** `addWaypoint`: appends and keeps the route. */
  function AddWaypoint(s: RouteState, w: Place): (s': RouteState)
    ensures |s'.waypoints| == |s.waypoints| + 1
    ensures s'.waypoints[..|s.waypoints|] == s.waypoints && s'.waypoints[|s.waypoints|] == w
    ensures s' == s.(waypoints := s'.waypoints)
  {
    s.(waypoints := s.waypoints + [w])
  }

  /** `waypoints.filter((_, i) => i !== index)` */
  function WithoutIndex(ws: seq<Place>, index: int): (r: seq<Place>)
    ensures |r| <= |ws|
  {
    if |ws| == 0 then []
    else
      var n := |ws| - 1;
      WithoutIndex(ws[..n], index) + (if n != index then [ws[n]] else [])
  }

  /** The filter removes exactly the element at `index` and keeps the rest
      in order; an index outside the list removes nothing. */
  lemma {:induction false} WithoutIndexSlices(ws: seq<Place>, index: int)
    ensures 0 <= index < |ws| ==> WithoutIndex(ws, index) == ws[..index] + ws[index + 1..]
    ensures !(0 <= index < |ws|) ==> WithoutIndex(ws, index) == ws
  {
    if |ws| > 0 {
      var n := |ws| - 1;
      WithoutIndexSlices(ws[..n], index);
      if index == n {
        assert ws[..n][..index] == ws[..index];
        assert ws[index + 1..] == [];
      } else if 0 <= index < n {
        assert ws[..n][..index] == ws[..index];
        assert ws[..n][index + 1..] + [ws[n]] == ws[index + 1..];
      } else {
        assert ws[..n] + [ws[n]] == ws;
      }
    }
  }

  /** `removeWaypoint`: filters the index out and drops the route. */
  function RemoveWaypoint(s: RouteState, index: int): (s': RouteState)
    ensures s'.route.None?
    ensures s' == s.(waypoints := s'.waypoints, route := None)
    ensures 0 <= index < |s.waypoints| ==> |s'.waypoints| == |s.waypoints| - 1
    ensures 0 <= index < |s.waypoints| ==> s'.waypoints == s.waypoints[..index] + s.waypoints[index + 1..]
    ensures !(0 <= index < |s.waypoints|) ==> s'.waypoints == s.waypoints
  {
    WithoutIndexSlices(s.waypoints, index);
    s.(waypoints := WithoutIndex(s.waypoints, index), route := None)
  }

  function SetRoute(s: RouteState, r: Option<WebRoute>): (s': RouteState)
    ensures s'.route == r
    ensures s' == s.(route := r)
  {
    s.(route := r)
  }

  /** `setTransportMode`: stores the mode, and drops the route only when
      a route and both endpoints are present. */
  function SetTransportMode(s: RouteState, m: WebMode): (s': RouteState)
    ensures s'.transportMode == m
    ensures s'.route.None? <==> s.route.None? || (s.origin.Some? && s.destination.Some?)
    ensures s' == s.(transportMode := m, route := s'.route)
  {
    if s.route.Some? && s.origin.Some? && s.destination.Some? then
      s.(transportMode := m, route := None)
    else
      s.(transportMode := m)
  }

  function SetIsLoading(s: RouteState, b: bool): (s': RouteState)
    ensures s'.isLoading == b
    ensures s' == s.(isLoading := b)
  {
    s.(isLoading := b)
  }

  /** `reset`: everything back to the initial state except the mode. */
  function Reset(s: RouteState): (s': RouteState)
    ensures s'.origin.None? && s'.destination.None? && s'.waypoints == []
    ensures s'.route.None? && !s'.isLoading
    ensures s'.transportMode == s.transportMode
  {
    s.(origin := None, destination := None, waypoints := [], route := None, isLoading := false)
  }

  /** A reset store is the initial one in the kept mode, and resetting it
      again changes nothing. */
  lemma ResetIsInitial(s: RouteState)
    ensures Reset(s) == Initial().(transportMode := s.transportMode)
    ensures Reset(Reset(s)) == Reset(s)
  {
  }
}
