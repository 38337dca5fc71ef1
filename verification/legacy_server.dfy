/** The legacy Python WebSocket server (`server/server.py`): each client
    connection gets a virtual gamepad from the manager and a session; its
    messages drive that gamepad; a heartbeat sweep picks out silent
    sessions.

    A connection is an opaque identity; what a handler sends is returned
    alongside the new state. The clock is a parameter. */
module LegacyServer {
  import opened Wrappers
  import opened Text
  import opened JsonValue
  import opened LegacyGamepads
  import VirtualBridge

  /** `MAX_CONTROLLERS` and `HEARTBEAT_TIMEOUT` (seconds) of `server/config.py`. */
  const MaxControllers: nat := 4
  const HeartbeatTimeout: real := 15.0

  /** A client connection. */
  type Conn = nat

  /** `ControllerSession`. */
  datatype Session = Session(index: nat, clientName: string, lastHeartbeat: real, connectedAt: real)

  /** `AirControllerServer`: the gamepad manager and the sessions by
      connection. */
  datatype Server = Server(manager: Manager, sessions: map<Conn, Session>)

  /** What the server sends. */
  datatype Outgoing =
    | ErrorMessage(message: string)
    | ServerInfo(playerIndex: nat, playerName: string, maxControllers: nat, connectedControllers: nat)
    | PlayerCount(count: nat, max: nat)
    | HeartbeatReply(ts: real)
    | CloseConnection

  /** A handler's result: the new state, what goes back on the handler's own
      connection, and what is broadcast to other connections. */
  datatype Step = Step(server: Server, replies: seq<Outgoing>, broadcast: set<(Conn, Outgoing)>)

  function NewServer(): (s: Server)
    ensures |s.sessions| == 0 && ConnectedCount(s.manager) == 0
    ensures s.manager.maxControllers == MaxControllers
  {
    Server(NewManager(MaxControllers), map[])
  }

  /** `f"Player {player_index + 1}"`. */
  function PlayerName(index: nat): (r: string)
    ensures |r| > 7 && r[..7] == "Player "
  {
    "Player " + NatToString(index + 1)
  }

  /** The number in a player's name is the index counted from one. */
  lemma {:induction false} PlayerNameNumber(index: nat)
    ensures All(PlayerName(index)[7..], IsDigit)
    ensures DigitsValue(PlayerName(index)[7..]) == index + 1
  {
    assert PlayerName(index)[7..] == NatToString(index + 1);
    NatToStringRoundTrip(index + 1);
  }

  /** The refusal sent when the manager is full. */
  const FullMessage: string := "Server full. Maximum " + NatToString(MaxControllers) + " controllers supported."

  /** `_broadcast_player_count`: the count and capacity to every session. */
  function BroadcastCount(s: Server): (r: set<(Conn, Outgoing)>)
    ensures forall c | c in s.sessions :: (c, PlayerCount(ConnectedCount(s.manager), MaxControllers)) in r
    ensures forall p | p in r :: p.0 in s.sessions && p.1 == PlayerCount(ConnectedCount(s.manager), MaxControllers)
  {
    set c | c in s.sessions :: (c, PlayerCount(ConnectedCount(s.manager), MaxControllers))
  }

  // ---------------------------------------------------------------------
  // Connections

  /** The start of `handle_connection`: a full manager refuses the client
      with an error and closes it, registering nothing; otherwise a new
      session named after its gamepad's index is registered, told its
      place, and everyone hears the new count. */
  function Connect(s: Server, ws: Conn, now: real): (r: Step)
    ensures ConnectedCount(s.manager) >= s.manager.maxControllers ==>
      r == Step(s, [ErrorMessage(FullMessage), CloseConnection], {})
    ensures ConnectedCount(s.manager) < s.manager.maxControllers ==>
      && var index := s.manager.nextIndex;
      && r.server.sessions == s.sessions[ws := Session(index, PlayerName(index), now, now)]
      && GetGamepad(r.server.manager, index) == Some(NewGamepad(index))
      && r.replies == [ServerInfo(index, PlayerName(index), MaxControllers, ConnectedCount(r.server.manager))]
      && r.broadcast == BroadcastCount(r.server)
  {
    var (m, g) := CreateGamepad(s.manager);
    match g
    case None => Step(s, [ErrorMessage(FullMessage), CloseConnection], {})
    case Some(pad) =>
      var session := Session(pad.index, PlayerName(pad.index), now, now);
      var s' := Server(m, s.sessions[ws := session]);
      Step(s', [ServerInfo(session.index, session.clientName, MaxControllers, ConnectedCount(m))], BroadcastCount(s'))
  }

  /** The `finally` of `handle_connection`: a registered connection's
      gamepad is removed and its session dropped, and the others hear the
      new count; a refused connection leaves nothing to clean up. */
  function Disconnect(s: Server, ws: Conn): (r: Step)
    ensures ws !in s.sessions ==> r == Step(s, [], {})
    ensures ws in s.sessions ==>
      && r.server.sessions == s.sessions - {ws}
      && r.server.manager == RemoveGamepad(s.manager, s.sessions[ws].index).0
      && r.broadcast == BroadcastCount(r.server)
      && r.replies == []
  {
    if ws !in s.sessions then Step(s, [], {})
    else
      var s' := Server(RemoveGamepad(s.manager, s.sessions[ws].index).0, s.sessions - {ws});
      Step(s', [], BroadcastCount(s'))
  }

  // ---------------------------------------------------------------------
  // Messages

  /** `message.get(key, default)`. */
  function GetOr(message: Json, key: string, default: Json): (r: Json)
    ensures Get(message, key).Some? ==> r == Get(message, key).value
    ensures Get(message, key).None? ==> r == default
  {
    match Get(message, key)
    case Some(v) => v
    case None => default
  }

  /** The message types that drive the gamepad. */
  const PadTypes: set<Option<Json>> :=
    {Some(JStr("button")), Some(JStr("joystick")), Some(JStr("trigger")), Some(JStr("dpad"))}

  /** `button` / `dpad` with a name: `pressed` truthy presses, anything
      else releases; a name that is not a string raises on `.lower()` and
      the message is dropped. */
  function ButtonEffect(g: Gamepad, name: Json, pressed: Json): (r: Gamepad)
    ensures !name.JStr? ==> r == g
    ensures name.JStr? && LookupButton(name.s).Some? ==>
      var b := LookupButton(name.s).value;
      && (b in r.report.buttons <==> PyTruthy(Some(pressed)))
      && r.report == g.report.(buttons := r.report.buttons)
      && r.report.buttons - {b} == g.report.buttons - {b}
    ensures name.JStr? && LookupButton(name.s).None? ==> r == g
  {
    if !name.JStr? then g
    else if PyTruthy(Some(pressed)) then PressButton(g, name.s)
    else ReleaseButton(g, name.s)
  }

  /** `float(message.get(key, 0))`; `None` when `float` raises. */
  function FloatField(message: Json, key: string): Option<real> {
    PyFloat(GetOr(message, key, JNum(0.0)))
  }

  /** The part of `_handle_message` that drives the gamepad. Any stick or
      trigger other than `"left"` is the right one; a value `float` cannot
      convert drops the message; a message of any other type, or one that is
      not an object, leaves the gamepad alone. */
  function PadEffect(g: Gamepad, message: Json): (r: Gamepad)
    ensures r.index == g.index && r.active == g.active
    ensures Get(message, "type") !in PadTypes ==> r == g
    ensures InRange(g.report) ==> InRange(r.report)
    ensures Get(message, "type") == Some(JStr("joystick")) ==>
      && r.report.buttons == g.report.buttons
      && (GetOr(message, "stick", JStr("left")) == JStr("left") ==> r.report.right == g.report.right)
      && (GetOr(message, "stick", JStr("left")) != JStr("left") ==> r.report.left == g.report.left)
    ensures Get(message, "type") == Some(JStr("trigger")) ==>
      && r.report.buttons == g.report.buttons
      && (GetOr(message, "trigger", JStr("left")) == JStr("left") ==> r.report.rightTrigger == g.report.rightTrigger)
      && (GetOr(message, "trigger", JStr("left")) != JStr("left") ==> r.report.leftTrigger == g.report.leftTrigger)
  {
    var t := Get(message, "type");
    if t == Some(JStr("button")) then
      ButtonEffect(g, GetOr(message, "button", JStr("")), GetOr(message, "pressed", JBool(false)))
    else if t == Some(JStr("joystick")) then
      var left := GetOr(message, "stick", JStr("left")) == JStr("left");
      match (FloatField(message, "x"), FloatField(message, "y"))
      case (Some(x), Some(y)) => SetJoystick(g, left, x, y)
      case _ => g
    else if t == Some(JStr("trigger")) then
      var left := GetOr(message, "trigger", JStr("left")) == JStr("left");
      match FloatField(message, "value")
      case Some(v) => SetTrigger(g, left, v)
      case None => g
    else if t == Some(JStr("dpad")) then
      var direction := VirtualBridge.PyStr(GetOr(message, "direction", JStr("")));
      ButtonEffect(g, JStr("dpad_" + direction), GetOr(message, "pressed", JBool(false)))
    else g
  }

  /** `_handle_message` for a registered connection: a heartbeat refreshes the
      session's time and is echoed with it; every other message acts on the
      session's gamepad only. */
  function HandleMessage(s: Server, ws: Conn, message: Json, now: real): (r: Step)
    requires ws in s.sessions
    ensures r.broadcast == {}
    ensures r.server.sessions.Keys == s.sessions.Keys
    ensures forall c | c in s.sessions && c != ws :: r.server.sessions[c] == s.sessions[c]
    ensures r.server.sessions[ws].index == s.sessions[ws].index
    ensures r.server.sessions[ws].clientName == s.sessions[ws].clientName
    ensures r.server.manager.pads.Keys == s.manager.pads.Keys
    ensures r.server.manager.nextIndex == s.manager.nextIndex
    ensures r.server.manager.maxControllers == s.manager.maxControllers
    ensures forall i | i in s.manager.pads && i != s.sessions[ws].index :: r.server.manager.pads[i] == s.manager.pads[i]
    ensures Get(message, "type") == Some(JStr("heartbeat")) ==>
      && r.server.sessions[ws] == s.sessions[ws].(lastHeartbeat := now)
      && r.server.manager == s.manager
      && r.replies == [HeartbeatReply(now)]
    ensures Get(message, "type") != Some(JStr("heartbeat")) ==>
      && r.server.sessions == s.sessions
      && r.replies == []
    ensures Get(message, "type") !in PadTypes + {Some(JStr("heartbeat"))} ==> r == Step(s, [], {})
  {
    var session := s.sessions[ws];
    if Get(message, "type") == Some(JStr("heartbeat")) then
      Step(s.(sessions := s.sessions[ws := session.(lastHeartbeat := now)]), [HeartbeatReply(now)], {})
    else if session.index in s.manager.pads then
      var pads := s.manager.pads[session.index := PadEffect(s.manager.pads[session.index], message)];
      Step(s.(manager := s.manager.(pads := pads)), [], {})
    else Step(s, [], {})
  }

  /** A d-pad message acts as the button message for `dpad_<direction>`
      with the same `pressed`. */
  lemma {:induction false} DpadIsButton(g: Gamepad, dpad: Json, button: Json)
    requires Get(dpad, "type") == Some(JStr("dpad")) && Get(button, "type") == Some(JStr("button"))
    requires GetOr(button, "button", JStr("")) == JStr("dpad_" + VirtualBridge.PyStr(GetOr(dpad, "direction", JStr(""))))
    requires GetOr(dpad, "pressed", JBool(false)) == GetOr(button, "pressed", JBool(false))
    ensures PadEffect(g, dpad) == PadEffect(g, button)
  {
  }

  // ---------------------------------------------------------------------
  // Heartbeat sweep and shutdown

  /** `_heartbeat_monitor`: the connections it closes at time `now`. */
  function TimedOut(s: Server, now: real): (r: set<Conn>)
    ensures r <= s.sessions.Keys
  {
    set c | c in s.sessions && now - s.sessions[c].lastHeartbeat > HeartbeatTimeout
  }

  /** A session that sent a heartbeat at `t` is spared by every sweep up to
      `t` plus the timeout, and picked by every sweep after that unless it
      sends another. */
  lemma {:induction false} HeartbeatKeepsAlive(s: Server, ws: Conn, message: Json, t: real, now: real)
    requires ws in s.sessions && Get(message, "type") == Some(JStr("heartbeat"))
    ensures var s' := HandleMessage(s, ws, message, t).server;
      && (now <= t + HeartbeatTimeout ==> ws !in TimedOut(s', now))
      && (now > t + HeartbeatTimeout ==> ws in TimedOut(s', now))
  {
  }

  /** A session picked by one sweep is picked by every later one. */
  lemma {:induction false} TimedOutGrows(s: Server, now: real, later: real)
    requires now <= later
    ensures TimedOut(s, now) <= TimedOut(s, later)
  {
  }

  /** A new session is not picked by a sweep within the timeout of its
      arrival. */
  lemma {:induction false} NewSessionSpared(s: Server, ws: Conn, now: real, at: real)
    requires ConnectedCount(s.manager) < s.manager.maxControllers
    requires now <= at <= now + HeartbeatTimeout
    ensures ws !in TimedOut(Connect(s, ws, now).server, at)
  {
  }

  /** The end of `start`: every gamepad closed; the sessions stay until their
      connections end. */
  function Stop(s: Server): (r: Server)
    ensures ConnectedCount(r.manager) == 0 && r.sessions == s.sessions
  {
    s.(manager := CloseAll(s.manager).0)
  }

  /** Once stopped, the connections ending one by one leave the manager
      empty. */
  lemma {:induction false} StopThenDisconnect(s: Server, ws: Conn)
    ensures var r := Disconnect(Stop(s), ws).server;
      ConnectedCount(r.manager) == 0 && r.sessions == s.sessions - {ws}
  {
  }

  // ---------------------------------------------------------------------
  // The registry invariant

  /** The gamepad index of each session. */
  function Indices(sessions: map<Conn, Session>): (r: map<Conn, nat>)
    ensures r.Keys == sessions.Keys
    ensures forall c | c in r :: r[c] == sessions[c].index
  {
    map c | c in sessions :: sessions[c].index
  }

  lemma {:induction false} IndicesAdd(sessions: map<Conn, Session>, ws: Conn, session: Session)
    ensures Indices(sessions[ws := session]) == Indices(sessions)[ws := session.index]
  {
  }

  lemma {:induction false} IndicesRemove(sessions: map<Conn, Session>, ws: Conn)
    ensures Indices(sessions - {ws}) == Indices(sessions) - {ws}
  {
  }

  lemma {:induction false} IndicesSame(sessions: map<Conn, Session>, sessions': map<Conn, Session>)
    requires sessions'.Keys == sessions.Keys
    requires forall c | c in sessions :: sessions'[c].index == sessions[c].index
    ensures Indices(sessions') == Indices(sessions)
  {
  }

  /** Connections and indices correspond one to one. */
  ghost predicate Corresponds(ix: map<Conn, nat>, keys: set<nat>) {
    && (forall c | c in ix :: ix[c] in keys)
    && (forall c, d | c in ix && d in ix && c != d :: ix[c] != ix[d])
    && (forall i | i in keys :: exists c | c in ix :: ix[c] == i)
    && |ix| == |keys|
  }

  lemma {:induction false} CorrespondsAdd(ix: map<Conn, nat>, keys: set<nat>, ws: Conn, index: nat)
    requires Corresponds(ix, keys) && ws !in ix && index !in keys
    ensures Corresponds(ix[ws := index], keys + {index})
  {
    var ix' := ix[ws := index];
    forall i | i in keys + {index}
      ensures exists c | c in ix' :: ix'[c] == i
    {
      if i == index {
        assert ix'[ws] == i;
      } else {
        var c :| c in ix && ix[c] == i;
        assert ix'[c] == i;
      }
    }
  }

  lemma {:induction false} CorrespondsRemove(ix: map<Conn, nat>, keys: set<nat>, ws: Conn)
    requires Corresponds(ix, keys) && ws in ix
    ensures Corresponds(ix - {ws}, keys - {ix[ws]})
  {
    var ix' := ix - {ws};
    assert ix'.Keys == ix.Keys - {ws};
    forall i | i in keys - {ix[ws]}
      ensures exists c | c in ix' :: ix'[c] == i
    {
      var c :| c in ix && ix[c] == i;
      assert ix'[c] == i;
    }
  }

  /** Each session is named after its index. */
  ghost predicate Named(sessions: map<Conn, Session>) {
    forall c | c in sessions :: sessions[c].clientName == PlayerName(sessions[c].index)
  }

  /** Sessions and gamepads correspond one to one: each session's gamepad is
      open in the manager under the session's index, no two sessions share
      an index, every gamepad belongs to a session, and each session is
      named after its index. */
  ghost predicate Valid(s: Server) {
    && ValidManager(s.manager)
    && s.manager.maxControllers == MaxControllers
    && Named(s.sessions)
    && Corresponds(Indices(s.sessions), s.manager.pads.Keys)
  }

  lemma {:induction false} NewServerValid()
    ensures Valid(NewServer())
  {
  }

  /** There are never more sessions than `MAX_CONTROLLERS`. */
  lemma {:induction false} SessionsBounded(s: Server)
    requires Valid(s)
    ensures |s.sessions| <= MaxControllers
  {
    assert |s.sessions| == |Indices(s.sessions)|;
  }

  /** In a valid server the count broadcast is the number of sessions:
      every session, and nobody else, is told how many sessions there are. */
  lemma {:induction false} BroadcastCountsSessions(s: Server)
    requires Valid(s)
    ensures forall c | c in s.sessions :: (c, PlayerCount(|s.sessions|, MaxControllers)) in BroadcastCount(s)
    ensures forall p | p in BroadcastCount(s) :: p.0 in s.sessions && p.1 == PlayerCount(|s.sessions|, MaxControllers)
  {
    assert |s.sessions| == |Indices(s.sessions)|;
  }

  /** What an accepted connection does to the sessions and the manager. */
  lemma {:induction false} ConnectShape(s: Server, ws: Conn, now: real)
    requires ConnectedCount(s.manager) < s.manager.maxControllers
    ensures var r := Connect(s, ws, now).server;
      var index := s.manager.nextIndex;
      && r.manager == CreateGamepad(s.manager).0
      && r.sessions == s.sessions[ws := Session(index, PlayerName(index), now, now)]
  {
  }

  lemma {:induction false} ConnectCorresponds(s: Server, ws: Conn, now: real)
    requires Valid(s) && ws !in s.sessions
    requires ConnectedCount(s.manager) < s.manager.maxControllers
    ensures Corresponds(Indices(Connect(s, ws, now).server.sessions), Connect(s, ws, now).server.manager.pads.Keys)
  {
    var index := s.manager.nextIndex;
    ConnectShape(s, ws, now);
    assert index !in s.manager.pads;
    assert Connect(s, ws, now).server.manager.pads.Keys == s.manager.pads.Keys + {index};
    SessionAdded(s.sessions, s.manager.pads.Keys, ws, Session(index, PlayerName(index), now, now));
  }

  /** A new connection with a new index extends the correspondence. */
  lemma {:induction false} SessionAdded(sessions: map<Conn, Session>, keys: set<nat>, ws: Conn, session: Session)
    requires Corresponds(Indices(sessions), keys) && ws !in sessions && session.index !in keys
    ensures Corresponds(Indices(sessions[ws := session]), keys + {session.index})
  {
    CorrespondsAdd(Indices(sessions), keys, ws, session.index);
    IndicesAdd(sessions, ws, session);
  }

  lemma {:induction false} ConnectValid(s: Server, ws: Conn, now: real)
    requires Valid(s) && ws !in s.sessions
    ensures Valid(Connect(s, ws, now).server)
  {
    if ConnectedCount(s.manager) < s.manager.maxControllers {
      CreateValid(s.manager);
      ConnectCorresponds(s, ws, now);
      assert Named(Connect(s, ws, now).server.sessions);
    }
  }

  lemma {:induction false} DisconnectValid(s: Server, ws: Conn)
    requires Valid(s)
    ensures Valid(Disconnect(s, ws).server)
  {
    if ws in s.sessions {
      var r := Disconnect(s, ws).server;
      var index := s.sessions[ws].index;
      RemoveValid(s.manager, index);
      CorrespondsRemove(Indices(s.sessions), s.manager.pads.Keys, ws);
      IndicesRemove(s.sessions, ws);
      assert r.manager.pads.Keys == s.manager.pads.Keys - {index};
    }
  }

  /** The second server keeps the first's connections with their indices and
      names, and its manager is valid with the same indices and capacity. */
  ghost predicate SameShape(s: Server, r: Server) {
    && r.sessions.Keys == s.sessions.Keys
    && (forall c | c in s.sessions ::
          r.sessions[c].index == s.sessions[c].index && r.sessions[c].clientName == s.sessions[c].clientName)
    && ValidManager(r.manager)
    && r.manager.pads.Keys == s.manager.pads.Keys && r.manager.maxControllers == s.manager.maxControllers
  }

  lemma {:induction false} SameShapeValid(s: Server, r: Server)
    requires Valid(s) && SameShape(s, r)
    ensures Valid(r)
  {
    IndicesSame(s.sessions, r.sessions);
  }

  /** A message keeps the server's shape whenever the sender's gamepad is
      registered. */
  lemma {:induction false} HandleShape(s: Server, ws: Conn, message: Json, now: real)
    requires ValidManager(s.manager) && ws in s.sessions && s.sessions[ws].index in s.manager.pads
    ensures SameShape(s, HandleMessage(s, ws, message, now).server)
  {
    if Get(message, "type") != Some(JStr("heartbeat")) {
      var index := s.sessions[ws].index;
      assert HandleMessage(s, ws, message, now).server.manager
        == s.manager.(pads := s.manager.pads[index := PadEffect(s.manager.pads[index], message)]);
      UpdateValid(s.manager, index, PadEffect(s.manager.pads[index], message));
    }
  }

  lemma {:induction false} HandleValid(s: Server, ws: Conn, message: Json, now: real)
    requires Valid(s) && ws in s.sessions
    ensures Valid(HandleMessage(s, ws, message, now).server)
  {
    assert Indices(s.sessions)[ws] == s.sessions[ws].index;
    HandleShape(s, ws, message, now);
    SameShapeValid(s, HandleMessage(s, ws, message, now).server);
  }

  /** A client that connects and leaves again restores the sessions and the
      gamepads as they were; only the next index has moved on. */
  lemma {:induction false} ConnectThenDisconnect(s: Server, ws: Conn, now: real)
    requires ValidManager(s.manager) && ws !in s.sessions
    requires ConnectedCount(s.manager) < s.manager.maxControllers
    ensures var r := Disconnect(Connect(s, ws, now).server, ws).server;
      && r.sessions == s.sessions
      && r.manager.pads == s.manager.pads
      && r.manager.nextIndex == s.manager.nextIndex + 1
  {
    var index := s.manager.nextIndex;
    assert index !in s.manager.pads;
    ConnectShape(s, ws, now);
    var c := Connect(s, ws, now).server;
    assert c.sessions - {ws} == s.sessions;
    assert c.manager.pads - {index} == s.manager.pads;
  }
}
