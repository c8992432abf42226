/** The chat widget: what a reply of the chat workflow does to the route and
    map stores, the guard on sending, and the clamp on the dragged button.
    Every reply posts exactly one bot message and ends any wait for a map
    pick. */
module Chat {
  import opened Wrappers
  import opened Numeric
  import opened Text
  import opened WebTypes
  import opened RouteStore
  import opened MapStore

  /** A point in a reply: `{ name, lat, lng }`. */
  datatype ChatPoint = ChatPoint(name: string, lat: real, lng: real)

  /** The reply’s `action`; any other value falls to the default branch. */
  datatype Action =
    | SetOriginAction
    | SetDestinationAction
    | AddWaypointAction
    | AddWaypointsAction
    | SetRouteAction
    | ClearRouteAction
    | OtherAction

  /** `N8NResponse`, without the unused `suggestions`. */
  datatype Reply = Reply(
    message: string,
    action: Option<Action>,
    location: Option<ChatPoint>,
    origin: Option<ChatPoint>,
    destination: Option<ChatPoint>,
    waypoints: Option<seq<ChatPoint>>)

  datatype Sender = User | Bot

  /** A chat message; its id and timestamp come from the clock and are left
      out. */
  datatype Message = Message(text: string, sender: Sender)

  /** The widget’s state together with the two stores it writes. */
  datatype Session = Session(
    view: MapState,
    stops: RouteState,
    messages: seq<Message>,
    input: string,
    isLoading: bool)

  /** The most stops a chat reply may fill. */
  const MaxStops: nat := 5

  /** `{ lat, lng, name }` */
  function PlaceOf(p: ChatPoint): (l: Place)
    ensures l.lat == p.lat && l.lng == p.lng && l.name == Some(p.name) && l.address.None?
  {
    NamedPlace(p.lat, p.lng, Some(p.name))
  }

  function PlacesOf(ps: seq<ChatPoint>): (ls: seq<Place>)
    ensures |ls| == |ps|
    ensures forall i | 0 <= i < |ps| :: ls[i] == PlaceOf(ps[i])
  {
    if |ps| == 0 then [] else PlacesOf(ps[..|ps| - 1]) + [PlaceOf(ps[|ps| - 1])]
  }

  lemma AppendAssoc<T>(a: seq<T>, b: seq<T>, c: seq<T>)
    ensures a + b + c == a + (b + c)
  {
  }

  /** `addWaypoint` once per point, in order. */
  function AddAll(rs: RouteState, ps: seq<ChatPoint>): (rs': RouteState)
    ensures rs' == rs.(waypoints := rs.waypoints + PlacesOf(ps))
  {
    if |ps| == 0 then rs
    else
      var n := |ps| - 1;
      AppendAssoc(rs.waypoints, PlacesOf(ps[..n]), [PlaceOf(ps[n])]);
      AddWaypoint(AddAll(rs, ps[..n]), PlaceOf(ps[n]))
  }

  // ---------------------------------------------------------------------
  // Bot texts

  /** The part of a stop name before its first comma. */
  function ShortName(name: string): (r: string)
    ensures ',' !in r
    ensures ',' !in name ==> r == name
  {
    var parts := Split(name, ',');
    SplitHead(name);
    parts[0]
  }

  lemma SplitHead(s: string)
    ensures ',' !in Split(s, ',')[0]
    ensures ',' !in s ==> Split(s, ',')[0] == s
  {
    if ',' in s {
      var i := FirstIndex(s, ',');
      assert Split(s, ',')[0] == s[..i];
    }
  }

  function ShortNames(ps: seq<ChatPoint>): (r: seq<string>)
    ensures |r| == |ps|
    ensures forall i | 0 <= i < |ps| :: r[i] == ShortName(ps[i].name)
  {
    if |ps| == 0 then [] else ShortNames(ps[..|ps| - 1]) + [ShortName(ps[|ps| - 1].name)]
  }

  const Check: string := "\U{2705} "

  function RouteSetText(o: ChatPoint, d: ChatPoint, stops: Option<seq<ChatPoint>>): string {
    Check + "Processado. \U{1F5FA}\U{FE0F} Rota definida:\n\U{1F4CD} Origem: " + o.name
      + "\n\U{1F3AF} Destino: " + d.name
      + (if stops.Some? && |stops.value| > 0
         then "\n\U{1F6D1} Paragens: " + Join(", ", ShortNames(stops.value))
         else "")
  }

  const LimitText: string := "\U{26A0}\U{FE0F} Limite m\U{E1}ximo de 5 paragens atingido."

  function SlotsText(slots: nat): string {
    Check + NatToString(slots) + " paragem(ns) adicionada(s). Limite m\U{E1}ximo atingido."
  }

  const ClearedText: string := "Rota limpa."

  const FailureText: string :=
    "Desculpe, ocorreu um erro ao processar a sua mensagem. Por favor, tente novamente."

  // ---------------------------------------------------------------------
  // processN8NResponse

  /** The stop slots left: five minus the stops already chosen. */
  function FreeSlots(ws: seq<Place>): int {
    MaxStops as int - CountFilled(ws)
  }

  /** The switch on the reply’s action: the new stores and the one bot text
      it posts. */
  function Dispatch(ms: MapState, rs: RouteState, r: Reply): (d: (MapState, RouteState, string))
    ensures d.0.zoom == ms.zoom && d.0.selectedPoint == ms.selectedPoint
    ensures d.1.transportMode == rs.transportMode && d.1.isLoading == rs.isLoading
  {
    match r.action
    case None => (ms, rs, r.message)
    case Some(SetRouteAction) =>
      if r.origin.Some? && r.destination.Some? then
        var o := r.origin.value;
        var d := r.destination.value;
        (SetCenter(ms, ((o.lat + d.lat) / 2.0, (o.lng + d.lng) / 2.0)),
         SetDestination(SetOrigin(rs, Some(PlaceOf(o))), Some(PlaceOf(d))),
         RouteSetText(o, d, r.waypoints))
      else (ms, rs, r.message)
    case Some(SetOriginAction) =>
      if r.location.Some? then
        var l := r.location.value;
        (SetCenter(ms, (l.lat, l.lng)), SetOrigin(rs, Some(PlaceOf(l))), Check + "Origem definida: " + l.name)
      else (ms, rs, r.message)
    case Some(SetDestinationAction) =>
      if r.location.Some? then
        var l := r.location.value;
        (SetCenter(ms, (l.lat, l.lng)), SetDestination(rs, Some(PlaceOf(l))), Check + "Destino definido: " + l.name)
      else (ms, rs, r.message)
    case Some(AddWaypointAction) =>
      if r.location.Some? then
        var l := r.location.value;
        (SetCenter(ms, (l.lat, l.lng)), AddWaypoint(rs, PlaceOf(l)), Check + "Paragem adicionada: " + l.name)
      else (ms, rs, r.message)
    case Some(AddWaypointsAction) =>
      if r.waypoints.Some? && |r.waypoints.value| > 0 then
        var ps := r.waypoints.value;
        var slots := FreeSlots(rs.waypoints);
        if slots <= 0 then (ms, rs, LimitText)
        else
          var taken := if slots < |ps| then ps[..slots] else ps;
          (ms, AddAll(rs, taken), if |ps| > slots then SlotsText(slots) else r.message)
      else (ms, rs, r.message)
    case Some(ClearRouteAction) =>
      (ms, SetWaypoints(SetDestination(SetOrigin(rs, None), None), []),
       if r.message == "" then ClearedText else r.message)
    case Some(OtherAction) => (ms, rs, r.message)
  }

  /** `processN8NResponse`: the action’s effect, one bot message, and the
      wait for a map pick cleared on every path. */
  function Process(s: Session, r: Reply): (s': Session)
    ensures s'.view.waitingForInput.None?
    ensures |s'.messages| == |s.messages| + 1 && s'.messages[..|s.messages|] == s.messages
    ensures s'.messages[|s.messages|].sender == Bot
    ensures s'.view.zoom == s.view.zoom && s'.view.selectedPoint == s.view.selectedPoint
    ensures s'.stops.transportMode == s.stops.transportMode && s'.stops.isLoading == s.stops.isLoading
    ensures s'.input == s.input && s'.isLoading == s.isLoading
  {
    var (ms, rs, text) := Dispatch(s.view, s.stops, r);
    s.(view := ClearWaitingForInput(ms), stops := rs, messages := s.messages + [Message(text, Bot)])
  }

  /** The bot text a reply posts. */
  function Posted(s: Session, r: Reply): string {
    Dispatch(s.view, s.stops, r).2
  }

  /** No action, or an unknown one: only the reply’s message is posted. */
  lemma NoActionOnlyPosts(s: Session, r: Reply)
    requires r.action.None? || r.action == Some(OtherAction)
    ensures var s' := Process(s, r);
      && s'.stops == s.stops
      && s'.view == s.view.(waitingForInput := None)
      && s'.messages == s.messages + [Message(r.message, Bot)]
  {
  }

  /** `set_route` with both ends sets them and centres between them; the
      stops it lists are named in the message but not added. Without both
      ends it only posts the message. */
  lemma SetRouteEffect(s: Session, r: Reply)
    requires r.action == Some(SetRouteAction)
    ensures var s' := Process(s, r);
      if r.origin.Some? && r.destination.Some? then
        var (o, d) := (r.origin.value, r.destination.value);
        && s'.stops == s.stops.(origin := Some(PlaceOf(o)), destination := Some(PlaceOf(d)), route := None)
        && s'.view.center == ((o.lat + d.lat) / 2.0, (o.lng + d.lng) / 2.0)
        && s'.stops.waypoints == s.stops.waypoints
      else
        s'.stops == s.stops && s'.view == s.view.(waitingForInput := None) && Posted(s, r) == r.message
  {
  }

  /** `set_origin`, `set_destination` and `add_waypoint` with a location set
      or append it and centre on it; without one they only post the
      message. */
  lemma LocationActionEffect(s: Session, r: Reply)
    requires r.action == Some(SetOriginAction) || r.action == Some(SetDestinationAction)
      || r.action == Some(AddWaypointAction)
    ensures var s' := Process(s, r);
      if r.location.Some? then
        var l := PlaceOf(r.location.value);
        && s'.view.center == (l.lat, l.lng)
        && (r.action == Some(SetOriginAction) ==> s'.stops == s.stops.(origin := Some(l), route := None))
        && (r.action == Some(SetDestinationAction) ==> s'.stops == s.stops.(destination := Some(l), route := None))
        && (r.action == Some(AddWaypointAction) ==> s'.stops == s.stops.(waypoints := s.stops.waypoints + [l]))
      else
        s'.stops == s.stops && s'.view == s.view.(waitingForInput := None) && Posted(s, r) == r.message
  {
  }

  /** `add_waypoints` appends the first `min(slots, k)` given stops in
      order when slots remain, and nothing otherwise. */
  lemma AddWaypointsEffect(s: Session, r: Reply)
    requires r.action == Some(AddWaypointsAction)
    requires r.waypoints.Some? && |r.waypoints.value| > 0
    ensures var s' := Process(s, r);
      var ps := r.waypoints.value;
      var slots := FreeSlots(s.stops.waypoints);
      && s'.stops.origin == s.stops.origin && s'.stops.destination == s.stops.destination
      && s'.stops.route == s.stops.route
      && (slots <= 0 ==> s'.stops == s.stops && Posted(s, r) == LimitText)
      && (slots > 0 ==>
           var k := if slots < |ps| then slots else |ps|;
           && s'.stops.waypoints == s.stops.waypoints + PlacesOf(ps[..k])
           && Posted(s, r) == (if |ps| > slots then SlotsText(slots) else r.message))
  {
    var ps := r.waypoints.value;
    assert ps[..|ps|] == ps;
  }

  /** A chat reply never takes the chosen stops past five: if at most five
      were chosen before, at most five are chosen after. */
  lemma {:induction false} AddWaypointsKeepsLimit(s: Session, r: Reply)
    requires CountFilled(s.stops.waypoints) <= MaxStops
    requires r.action == Some(AddWaypointsAction)
    ensures CountFilled(Process(s, r).stops.waypoints) <= MaxStops
  {
    if r.waypoints.Some? && |r.waypoints.value| > 0 {
      var ps := r.waypoints.value;
      var slots := FreeSlots(s.stops.waypoints);
      if slots > 0 {
        var taken := if slots < |ps| then ps[..slots] else ps;
        CountFilledAppend(s.stops.waypoints, PlacesOf(taken));
      }
    }
  }

  /** `clear_route` empties the endpoints and stops and posts the message,
      or "Rota limpa." when the message is empty. */
  lemma ClearRouteEffect(s: Session, r: Reply)
    requires r.action == Some(ClearRouteAction)
    ensures var s' := Process(s, r);
      && s'.stops == s.stops.(origin := None, destination := None, waypoints := [], route := None)
      && s'.view == s.view.(waitingForInput := None)
      && Posted(s, r) == (if r.message == "" then ClearedText else r.message)
  {
  }

  // ---------------------------------------------------------------------
  // Sending

  /** The characters JavaScript’s `trim` removes: white space and line
      terminators. */
  predicate IsJsSpace(c: char) {
    c == '\t' || c == '\n' || c == '\U{000B}' || c == '\U{000C}' || c == '\r' || c == ' '
    || c == '\U{00A0}' || c == '\U{1680}' || ('\U{2000}' <= c <= '\U{200A}')
    || c == '\U{2028}' || c == '\U{2029}' || c == '\U{202F}' || c == '\U{205F}'
    || c == '\U{3000}' || c == '\U{FEFF}'
  }

  /** JavaScript `s.trim()` */
  function JsTrim(s: string): (r: string)
    ensures |r| <= |s|
    ensures |r| > 0 ==> !IsJsSpace(r[0]) && !IsJsSpace(r[|r| - 1])
    decreases |s|
  {
    if |s| > 0 && IsJsSpace(s[0]) then JsTrim(s[1..])
    else if |s| > 0 && IsJsSpace(s[|s| - 1]) then JsTrim(s[..|s| - 1])
    else s
  }

  predicate Blank(s: string) {
    forall i | 0 <= i < |s| :: IsJsSpace(s[i])
  }

  /** `!s.trim()` holds exactly for the all-white-space strings. */
  lemma {:induction false} JsTrimEmptyIff(s: string)
    ensures JsTrim(s) == "" <==> Blank(s)
    decreases |s|
  {
    if |s| > 0 && IsJsSpace(s[0]) {
      JsTrimEmptyIff(s[1..]);
      assert Blank(s) <==> Blank(s[1..]) by {
        if Blank(s[1..]) {
          forall i | 0 <= i < |s| ensures IsJsSpace(s[i]) {
            if i > 0 { assert s[i] == s[1..][i - 1]; }
          }
        }
        if Blank(s) {
          forall i | 0 <= i < |s| - 1 ensures IsJsSpace(s[1..][i]) {
            assert s[1..][i] == s[i + 1];
          }
        }
      }
    } else if |s| > 0 && IsJsSpace(s[|s| - 1]) {
      assert !IsJsSpace(s[0]);
      assert !Blank(s);
      JsTrimEmptyIff(s[..|s| - 1]);
      assert s[..|s| - 1][0] == s[0];
    }
  }

  /** JavaScript `trim` pinned down: for any cut points with only white
      space before `k` and from `m` on, and the kept piece starting and
      ending with a non-space (or nothing kept when `s` is blank), the trim
      is exactly `s[k..m]`. */
  lemma {:induction false} JsTrimIs(s: string, k: nat, m: nat)
    requires k <= m <= |s|
    requires forall i | 0 <= i < k :: IsJsSpace(s[i])
    requires forall i | m <= i < |s| :: IsJsSpace(s[i])
    requires k < m ==> !IsJsSpace(s[k]) && !IsJsSpace(s[m - 1])
    requires k == m ==> Blank(s)
    ensures JsTrim(s) == s[k..m]
    decreases |s|
  {
    if k == m {
      JsTrimEmptyIff(s);
    } else if IsJsSpace(s[0]) {
      var t := s[1..];
      forall i | 0 <= i < k - 1 ensures IsJsSpace(t[i]) {
        assert t[i] == s[i + 1];
      }
      forall i | m - 1 <= i < |t| ensures IsJsSpace(t[i]) {
        assert t[i] == s[i + 1];
      }
      assert t[k - 1] == s[k] && t[m - 2] == s[m - 1];
      JsTrimIs(t, k - 1, m - 1);
      assert t[k - 1..m - 1] == s[k..m];
    } else if IsJsSpace(s[|s| - 1]) {
      var t := s[..|s| - 1];
      assert k == 0;
      forall i | m <= i < |t| ensures IsJsSpace(t[i]) {
        assert t[i] == s[i];
      }
      assert t[k] == s[k] && t[m - 1] == s[m - 1];
      JsTrimIs(t, k, m);
      assert t[k..m] == s[k..m];
    } else {
      assert s[k..m] == s;
    }
  }

  /** `handleSendMessage` up to the request: nothing happens for blank input
      or while a request is in flight; otherwise the text is posted as the
      user’s, the input cleared and loading set. */
  function Send(s: Session): (s': Session)
    ensures Blank(s.input) || s.isLoading ==> s' == s
    ensures !Blank(s.input) && !s.isLoading ==>
      s' == s.(messages := s.messages + [Message(s.input, User)], input := "", isLoading := true)
  {
    JsTrimEmptyIff(s.input);
    if JsTrim(s.input) == "" || s.isLoading then s
    else s.(messages := s.messages + [Message(s.input, User)], input := "", isLoading := true)
  }

  /** The rest of `handleSendMessage`: the reply is processed, or a failed
      request posts the apology; loading ends either way. */
  function Complete(s: Session, reply: Option<Reply>): (s': Session)
    ensures !s'.isLoading
    ensures |s'.messages| == |s.messages| + 1 && s'.messages[|s.messages|].sender == Bot
    ensures reply.None? ==> s' == s.(messages := s.messages + [Message(FailureText, Bot)], isLoading := false)
  {
    match reply
    case Some(r) => Process(s, r).(isLoading := false)
    case None => s.(messages := s.messages + [Message(FailureText, Bot)], isLoading := false)
  }

  /** Sending is not re-entrant: a send that fires blocks a second one until
      the reply completes, and the completed exchange adds exactly the user
      message and one bot message. */
  lemma SendOnce(s: Session, reply: Option<Reply>)
    requires !Blank(s.input) && !s.isLoading
    ensures Send(Send(s)) == Send(s)
    ensures var s' := Complete(Send(s), reply);
      && |s'.messages| == |s.messages| + 2
      && s'.messages[|s.messages|] == Message(s.input, User)
      && s'.messages[|s.messages| + 1].sender == Bot
      && !s'.isLoading && s'.input == ""
  {
  }

  // ---------------------------------------------------------------------
  // Dragging the chat button

  /** `Math.max(0, Math.min(v, limit))`: inside [0, limit] when the limit is
      non-negative, 0 when the button is wider than the window. */
  function ClampToWindow(v: real, limit: real): (r: real)
    ensures r >= 0.0
    ensures limit >= 0.0 ==> r <= limit
    ensures 0.0 <= v <= limit ==> r == v
    ensures limit < 0.0 ==> r == 0.0
    ensures limit >= 0.0 ==> r == ClampReal(v, 0.0, limit)
  {
    MaxReal(0.0, MinReal(v, limit))
  }

  /** The dragged button’s new top-left corner. */
  function DragPosition(x: real, y: real, windowWidth: real, windowHeight: real,
                        buttonWidth: real, buttonHeight: real): (p: (real, real))
    ensures 0.0 <= p.0 && 0.0 <= p.1
    ensures buttonWidth <= windowWidth ==> p.0 + buttonWidth <= windowWidth
    ensures buttonHeight <= windowHeight ==> p.1 + buttonHeight <= windowHeight
  {
    (ClampToWindow(x, windowWidth - buttonWidth), ClampToWindow(y, windowHeight - buttonHeight))
  }

  /** A position already in the window is kept, and clamping is idempotent. */
  lemma DragPositionStable(x: real, y: real, ww: real, wh: real, bw: real, bh: real)
    ensures var p := DragPosition(x, y, ww, wh, bw, bh);
      DragPosition(p.0, p.1, ww, wh, bw, bh) == p
    ensures 0.0 <= x && x + bw <= ww && 0.0 <= y && y + bh <= wh ==>
      DragPosition(x, y, ww, wh, bw, bh) == (x, y)
  {
  }
}
