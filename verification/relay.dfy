/** The session relay of `server.js`, whose handlers are repeated verbatim inside
    `createAirServer` in `desktop-app/src/server/appServer.js`.

    A host creates a session under a six-character code; controllers and
    bridges join it by code; controller input is forwarded to the host and to
    every bridge of the session. The socket.io transport is replaced by an
    outbox: every handler returns the new state together with the deliveries
    it emits, each naming the sockets that receive it. A socket's room
    memberships are kept explicitly (socket.io only ever adds them, and drops
    them all when the socket disconnects). Clocks and the random code are
    parameters. */
module Relay {
  import opened Wrappers
  import opened Text
  import opened JsonValue
  import opened Profiles
  import opened Catalogs

  type SocketId = string

  /** The characters a generated code is drawn from (no I, O, 0 or 1). */
  const CodeAlphabet: string := "ABCDEFGHJKLMNPQRSTUVWXYZ23456789"
  const CodeLength: nat := 6
  /** A session older than this many milliseconds is collected once empty. */
  const IdleLimit: int := 1000 * 60 * 20
  const BridgeNameLimit: nat := 40

  predicate IsCodeChar(c: char) { IsUpper(c) || IsDigit(c) }

  /** A code as `normalizeCode` produces it. */
  predicate IsNormalCode(s: string) { |s| <= CodeLength && All(s, IsCodeChar) }

  /** The characters `createSessionCode` draws from: upper-case letters
      other than I and O, and digits other than 0 and 1. */
  predicate IsAlphabetChar(c: char) {
    ('A' <= c <= 'Z' && c != 'I' && c != 'O') || ('2' <= c <= '9')
  }

  /** A code as `createSessionCode` produces it. */
  predicate IsSessionCode(s: string) { |s| == CodeLength && All(s, IsAlphabetChar) }

  /** `IsAlphabetChar` describes exactly the characters of `CodeAlphabet`. */
  lemma {:induction false} AlphabetExact(c: char)
    ensures c in CodeAlphabet <==> IsAlphabetChar(c)
  {
    if c in CodeAlphabet {
      var k :| 0 <= k < |CodeAlphabet| && CodeAlphabet[k] == c;
      AlphabetChars(k);
    }
  }

  lemma {:induction false} AlphabetChars(k: nat)
    requires k < |CodeAlphabet|
    ensures IsAlphabetChar(CodeAlphabet[k])
  {
  }

  // ---------------------------------------------------------------------
  // Payload coercions

  /** A handler's payload: an omitted one defaults to `{}`. */
  function Arg(payload: Option<Json>): Json {
    payload.GetOr(JObj([]))
  }

  /** `payload.config || payload`, read as the candidate `resolveSessionConfig`
      takes; each id goes through `String(value || "")` before it is
      normalised, so a number names the profile of its decimal form. */
  function RequestedConfig(p: Json): Config {
    var c := Get(p, "config");
    var src := if JsTruthy(c) then c.value else p;
    Config(JsString(Get(src, "gameProfileId"), ""), JsString(Get(src, "layoutId"), ""))
  }

  // ---------------------------------------------------------------------
  // Codes

  /** `normalizeCode`: upper-cased, only A-Z and 0-9, at most six characters,
      in one pass; `NormalizeCodePipeline` shows it equals the source's trim,
      upper-case, filter and slice. */
  function NormalizeCode(value: string): (r: string)
    ensures IsNormalCode(r)
  {
    MapPrefix(value, CodeLength, UpperChar, IsCodeChar)
  }

  /** `normalizeCode` as written: trim, upper-case, drop everything but A-Z
      and 0-9, keep six characters. */
  lemma {:induction false} NormalizeCodePipeline(value: string)
    ensures NormalizeCode(value) == Take(Keep(Upper(JsTrim(value)), IsCodeChar), CodeLength)
  {
    MapPrefixTrim(value, CodeLength, UpperChar, IsCodeChar, IsJsSpace);
    MapPrefixKeep(JsTrim(value), Upper(JsTrim(value)), CodeLength, UpperChar, IsCodeChar);
  }

  /** Exactly the normal codes are left unchanged by `NormalizeCode`. */
  lemma {:induction false} NormalizeCodeFixed(s: string)
    ensures NormalizeCode(s) == s <==> IsNormalCode(s)
  {
    if IsNormalCode(s) {
      assert forall i | 0 <= i < |s| :: IsCodeChar(s[i]) && UpperChar(s[i]) == s[i];
      MapPrefixFixed(s, CodeLength, UpperChar, IsCodeChar);
    }
  }

  lemma {:induction false} NormalizeCodeIdempotent(s: string)
    ensures NormalizeCode(NormalizeCode(s)) == NormalizeCode(s)
  {
    NormalizeCodeFixed(NormalizeCode(s));
  }

  /** A generated code is already normal, so typing it back joins it. */
  lemma {:induction false} SessionCodeNormal(code: string)
    requires IsSessionCode(code)
    ensures NormalizeCode(code) == code
  {
    NormalizeCodeFixed(code);
  }

  /** One draw of `createSessionCode`: six indices `Math.floor(Math.random() * 32)`. */
  predicate IsDraw(draw: seq<nat>) {
    |draw| == CodeLength && forall k | 0 <= k < |draw| :: draw[k] < |CodeAlphabet|
  }

  function DrawCode(draw: seq<nat>): (r: string)
    requires IsDraw(draw)
    ensures IsSessionCode(r)
  {
    forall k | 0 <= k < |draw| ensures IsAlphabetChar(CodeAlphabet[draw[k]]) {
      AlphabetChars(draw[k]);
    }
    seq(CodeLength, k requires 0 <= k < CodeLength => CodeAlphabet[draw[k]])
  }

  /** `createSessionCode`: the code of the first draw that is not a live
      session. The source keeps drawing until one is free; `None` means the
      given draws ran out first. */
  function CreateSessionCode(live: set<string>, draws: seq<seq<nat>>): (r: Option<string>)
    requires forall i | 0 <= i < |draws| :: IsDraw(draws[i])
    ensures r.Some? ==> IsSessionCode(r.value) && r.value !in live
    ensures r.Some? ==> exists i | 0 <= i < |draws| ::
      && r.value == DrawCode(draws[i])
      && forall j | 0 <= j < i :: DrawCode(draws[j]) in live
    ensures r.None? <==> forall i | 0 <= i < |draws| :: DrawCode(draws[i]) in live
  {
    if |draws| == 0 then None
    else if DrawCode(draws[0]) !in live then Some(DrawCode(draws[0]))
    else
      var r := CreateSessionCode(live, draws[1..]);
      assert forall i | 1 <= i < |draws| :: draws[i] == draws[1..][i - 1];
      r
  }

  // ---------------------------------------------------------------------
  // State

  datatype Role = NoRole | Host | Controller | Bridge

  /** `socket.data` plus the session rooms the socket has joined. An unset
      code or bridge name is "". */
  datatype SocketData = SocketData(role: Role, sessionCode: string, bridgeName: string, rooms: set<string>)

  datatype Session = Session(
    host: SocketId,
    controllers: set<SocketId>,
    bridges: set<SocketId>,
    createdAt: int,
    config: Config)

  /** The live sessions by code and the connected sockets by id. */
  datatype State = State(sessions: map<string, Session>, sockets: map<SocketId, SocketData>)

  const Initial: State := State(map[], map[])

  datatype CloseReason = HostNewSession | HostDisconnected

  /** `buildConfigPayload`: the code and config. The profile and layout the
      payload also carries are `GetGameProfile` and `GetLayout` of the config
      (see README, "Left out"). */
  datatype ConfigPayload = ConfigPayload(code: string, config: Config)

  datatype Event =
    | SessionClosed(code: string, reason: CloseReason)
    | ConfigUpdated(payload: ConfigPayload)
    | ControllerConnected(controllerId: SocketId, count: nat)
    | BridgeConnected(bridgeId: SocketId, name: string, count: nat)
    | SessionInput(controllerId: SocketId, at: int, input: Json)
    | ControllerDisconnected(controllerId: SocketId, count: nat)
    | BridgeDisconnected(bridgeId: SocketId, name: string, count: nat)

  /** One emitted event and the sockets it reaches. */
  datatype Delivery = Delivery(to: set<SocketId>, event: Event)

  /** The acknowledgement a handler sends back: `{ok: true, ...payload}` or
      `{ok: false, error: "SESSION_NOT_FOUND"}`. */
  datatype Ack = Accepted(payload: ConfigPayload) | SessionNotFound

  /** A handler's outcome; `ack` is `None` when none is sent (also when the
      handler throws on a `null` payload). */
  datatype Step = Step(st: State, out: seq<Delivery>, ack: Option<Ack>)

  function Members(s: Session): set<SocketId> {
    {s.host} + s.controllers + s.bridges
  }

  /** The connected sockets in the room `session:<code>`. */
  function Room(st: State, code: string): set<SocketId> {
    set id | id in st.sockets && code in st.sockets[id].rooms
  }

  /** `io.to(id)`: the socket itself while it is connected, nobody after. */
  function ToSocket(st: State, id: SocketId): set<SocketId> {
    if id in st.sockets then {id} else {}
  }

  /** `getSessionFromSocket`: the socket's normalised code and the live
      session under it, if any. */
  function SessionOf(st: State, id: SocketId): (string, Option<Session>)
    requires id in st.sockets
  {
    var code := NormalizeCode(st.sockets[id].sessionCode);
    (code, if code in st.sessions then Some(st.sessions[code]) else None)
  }

  /** The socket's data is consistent: a normal code, set exactly when a role
      is, and the socket is in that code's room. */
  predicate WellFormedData(d: SocketData) {
    && IsNormalCode(d.sessionCode)
    && (d.role.NoRole? <==> d.sessionCode == "")
    && (d.sessionCode != "" ==> d.sessionCode in d.rooms)
  }

  /** The relay's invariant: live codes are generated codes, socket data is
      well formed, and every connected member of a session is in its room. */
  predicate Valid(st: State) {
    && (forall c | c in st.sessions :: IsSessionCode(c))
    && (forall id | id in st.sockets :: WellFormedData(st.sockets[id]))
    && (forall c, id | c in st.sessions && id in st.sockets && id in Members(st.sessions[c]) ::
          c in st.sockets[id].rooms)
  }


  lemma {:induction false} InitialValid()
    ensures Valid(Initial)
  {
  }

  /** `socket.data` once the socket took `role` in the session `code` and
      joined its room. */
  function Enter(d: SocketData, role: Role, code: string): SocketData {
    d.(role := role, sessionCode := code, rooms := d.rooms + {code})
  }

  /** Storing a session under a generated code and recording that socket
      `id` entered it keeps the invariant, provided every member of the
      stored session was already one, or is `id`. */
  lemma {:induction false} AdmitValid(st: State, code: string, s: Session, id: SocketId, d: SocketData)
    requires Valid(st) && id in st.sockets
    requires IsSessionCode(code)
    requires code in st.sessions ==> Members(s) <= Members(st.sessions[code]) + {id}
    requires code !in st.sessions ==> Members(s) <= {id}
    requires d.role != NoRole && d.sessionCode == code && d.rooms == st.sockets[id].rooms + {code}
    ensures Valid(State(st.sessions[code := s], st.sockets[id := d]))
  {
    SessionCodeNormal(code);
  }

  /** Replacing a session by one with no new members keeps the invariant. */
  lemma {:induction false} ShrinkValid(st: State, code: string, s: Session)
    requires Valid(st) && code in st.sessions
    requires Members(s) <= Members(st.sessions[code])
    ensures Valid(st.(sessions := st.sessions[code := s]))
  {
  }

  // ---------------------------------------------------------------------
  // Connection and closing

  /** A new connection: `socket.data` starts empty. */
  function Connect(st: State, id: SocketId): (r: State)
    requires id !in st.sockets
    ensures r.sessions == st.sessions
    ensures r.sockets.Keys == st.sockets.Keys + {id}
    ensures forall s | s in st.sockets :: r.sockets[s] == st.sockets[s]
    ensures r.sockets[id].role == NoRole && r.sockets[id].rooms == {}
  {
    st.(sockets := st.sockets[id := SocketData(NoRole, "", "", {})])
  }

  lemma {:induction false} ConnectValid(st: State, id: SocketId)
    requires Valid(st) && id !in st.sockets
    requires forall c | c in st.sessions :: id !in Members(st.sessions[c])
    ensures Valid(Connect(st, id))
  {
  }

  /** `closeSession`: a no-op for an unknown code; otherwise the room is told
      `session:closed` and the session is removed. */
  function CloseSession(st: State, code: string, reason: CloseReason): (r: (State, seq<Delivery>))
    ensures r.0.sockets == st.sockets
    ensures NormalizeCode(code) !in st.sessions ==> r.0 == st && r.1 == []
    ensures NormalizeCode(code) in st.sessions ==>
      && r.0.sessions.Keys == st.sessions.Keys - {NormalizeCode(code)}
      && |r.1| == 1
      && r.1[0].event == SessionClosed(NormalizeCode(code), reason)
      && r.1[0].to == Room(st, NormalizeCode(code))
    ensures forall c | c in r.0.sessions :: c in st.sessions && r.0.sessions[c] == st.sessions[c]
  {
    var nc := NormalizeCode(code);
    if nc !in st.sessions then (st, [])
    else (st.(sessions := st.sessions - {nc}), [Delivery(Room(st, nc), SessionClosed(nc, reason))])
  }

  lemma {:induction false} CloseSessionValid(st: State, code: string, reason: CloseReason)
    requires Valid(st)
    ensures Valid(CloseSession(st, code, reason).0)
  {
  }

  // ---------------------------------------------------------------------
  // host:create-session

  /** The first half of `host:create-session`: a socket that is the host of a
      live session closes it with reason `host_new_session`. */
  function ClosePrevious(st: State, id: SocketId): (r: (State, seq<Delivery>))
    requires id in st.sockets
    ensures r.0.sockets == st.sockets
    ensures forall c | c in r.0.sessions :: c in st.sessions && r.0.sessions[c] == st.sessions[c]
  {
    var (code, previous) := SessionOf(st, id);
    if st.sockets[id].role == Host && previous.Some? then CloseSession(st, code, HostNewSession)
    else (st, [])
  }

  /** Only a host with a live session closes anything, and then exactly that
      session, telling its room. */
  lemma {:induction false} ClosePreviousCloses(st: State, id: SocketId)
    requires id in st.sockets
    ensures var r := ClosePrevious(st, id);
      var (code, previous) := SessionOf(st, id);
      if st.sockets[id].role == Host && previous.Some?
      then r.0.sessions == st.sessions - {code}
        && r.1 == [Delivery(Room(st, code), SessionClosed(code, HostNewSession))]
      else r == (st, [])
  {
    NormalizeCodeIdempotent(st.sockets[id].sessionCode);
  }

  /** `host:create-session` with the code `createSessionCode` picked after the
      previous session was closed; `null` as payload throws once the previous
      session is closed. */
  function CreateSession(st: State, cat: Catalog, id: SocketId, payload: Option<Json>, code: string, now: int): (r: Step)
    requires id in st.sockets
    requires IsSessionCode(code) && code !in ClosePrevious(st, id).0.sessions
    ensures r.out == ClosePrevious(st, id).1
    ensures r.ack.Some? <==> !Arg(payload).JNull?
    ensures r.ack.None? ==> r.st == ClosePrevious(st, id).0
    ensures r.st.sockets.Keys == st.sockets.Keys
  {
    var (st1, out) := ClosePrevious(st, id);
    var p := Arg(payload);
    if p.JNull? then Step(st1, out, None)
    else
      var config := ResolveSessionConfig(cat, RequestedConfig(p));
      var st2 := State(
        st1.sessions[code := Session(id, {}, {}, now, config)],
        st1.sockets[id := Enter(st1.sockets[id], Host, code)]);
      Step(st2, out, Some(Accepted(ConfigPayload(code, config))))
  }

  /** The new session has this socket as its host, no members, the requested
      config resolved against the catalog and `now` as its creation time; the
      socket becomes its host and joins its room; nothing else changes. */
  lemma {:induction false} CreateSessionRegisters(st: State, cat: Catalog, id: SocketId, payload: Option<Json>, code: string, now: int)
    requires id in st.sockets
    requires IsSessionCode(code) && code !in ClosePrevious(st, id).0.sessions
    requires !Arg(payload).JNull?
    ensures var r := CreateSession(st, cat, id, payload, code, now);
      var config := ResolveSessionConfig(cat, RequestedConfig(Arg(payload)));
      && r.ack == Some(Accepted(ConfigPayload(code, config)))
      && r.st.sessions == ClosePrevious(st, id).0.sessions[code := Session(id, {}, {}, now, config)]
      && r.st.sockets == st.sockets[id := Enter(st.sockets[id], Host, code)]
  {
  }

  lemma {:induction false} CreateSessionValid(st: State, cat: Catalog, id: SocketId, payload: Option<Json>, code: string, now: int)
    requires Valid(st)
    requires id in st.sockets
    requires IsSessionCode(code) && code !in ClosePrevious(st, id).0.sessions
    ensures Valid(CreateSession(st, cat, id, payload, code, now).st)
  {
    var st1 := ClosePrevious(st, id).0;
    assert Valid(st1) by {
      if st.sockets[id].role == Host && SessionOf(st, id).1.Some? {
        CloseSessionValid(st, SessionOf(st, id).0, HostNewSession);
      }
    }
    if !Arg(payload).JNull? {
      var config := ResolveSessionConfig(cat, RequestedConfig(Arg(payload)));
      AdmitValid(st1, code, Session(id, {}, {}, now, config), id, Enter(st1.sockets[id], Host, code));
    }
  }

  /** A socket that hosts a live session and creates another one ends up
      hosting only the new one: the old code is gone, or was drawn again for
      the new, empty session. */
  lemma {:induction false} CreateSessionReplaces(st: State, cat: Catalog, id: SocketId, payload: Option<Json>, code: string, now: int)
    requires id in st.sockets
    requires IsSessionCode(code) && code !in ClosePrevious(st, id).0.sessions
    requires st.sockets[id].role == Host && SessionOf(st, id).1.Some?
    requires !Arg(payload).JNull?
    ensures var r := CreateSession(st, cat, id, payload, code, now);
      var prev := SessionOf(st, id).0;
      && r.out == [Delivery(Room(st, prev), SessionClosed(prev, HostNewSession))]
      && (prev in r.st.sessions ==>
            prev == code && r.st.sessions[code].controllers == {} && r.st.sessions[code].bridges == {})
  {
    ClosePreviousCloses(st, id);
    CreateSessionRegisters(st, cat, id, payload, code, now);
  }

  // ---------------------------------------------------------------------
  // host:update-config

  /** `host:update-config`: only the host of a live session may replace its
      config; the new config goes to the whole room. */
  function UpdateConfig(st: State, cat: Catalog, id: SocketId, payload: Option<Json>): (r: Step)
    requires id in st.sockets
    ensures r.st.sockets == st.sockets && r.st.sessions.Keys == st.sessions.Keys
    ensures (SessionOf(st, id).1.None? || st.sockets[id].role != Host) <==> r.ack == Some(SessionNotFound)
    ensures !(r.ack.Some? && r.ack.value.Accepted?) ==> r.st == st && r.out == []
  {
    var (code, session) := SessionOf(st, id);
    if session.None? || st.sockets[id].role != Host then Step(st, [], Some(SessionNotFound))
    else if Arg(payload).JNull? then Step(st, [], None)
    else
      var config := ResolveSessionConfig(cat, RequestedConfig(Arg(payload)));
      var st1 := st.(sessions := st.sessions[code := session.value.(config := config)]);
      var p := ConfigPayload(code, config);
      Step(st1, [Delivery(Room(st, code), ConfigUpdated(p))], Some(Accepted(p)))
  }

  /** An accepted update replaces only that session's config and announces
      it to the session's room. */
  lemma {:induction false} UpdateConfigReplaces(st: State, cat: Catalog, id: SocketId, payload: Option<Json>)
    requires id in st.sockets
    requires SessionOf(st, id).1.Some? && st.sockets[id].role == Host && !Arg(payload).JNull?
    ensures var r := UpdateConfig(st, cat, id, payload);
      var code := SessionOf(st, id).0;
      var config := ResolveSessionConfig(cat, RequestedConfig(Arg(payload)));
      && r.st.sessions == st.sessions[code := st.sessions[code].(config := config)]
      && r.out == [Delivery(Room(st, code), ConfigUpdated(ConfigPayload(code, config)))]
      && r.ack == Some(Accepted(ConfigPayload(code, config)))
  {
  }

  lemma {:induction false} UpdateConfigValid(st: State, cat: Catalog, id: SocketId, payload: Option<Json>)
    requires Valid(st)
    requires id in st.sockets
    ensures Valid(UpdateConfig(st, cat, id, payload).st)
  {
    var (code, session) := SessionOf(st, id);
    if session.Some? && st.sockets[id].role == Host && !Arg(payload).JNull? {
      var config := ResolveSessionConfig(cat, RequestedConfig(Arg(payload)));
      ShrinkValid(st, code, session.value.(config := config));
    }
  }

  // ---------------------------------------------------------------------
  // controller:join-session and bridge:join-session

  /** The code a join payload asks for. */
  function JoinCode(p: Json): string {
    NormalizeCode(JsString(Get(p, "code"), ""))
  }

  /** `String(payload.name || "Bridge").slice(0, 40)`. */
  function BridgeName(p: Json): (r: string)
    ensures var name := JsString(Get(p, "name"), "Bridge");
      && |r| <= BridgeNameLimit && |r| <= |name| && r == name[..|r|]
      && (|name| <= BridgeNameLimit ==> r == name)
      && (|name| > BridgeNameLimit ==> |r| == BridgeNameLimit)
  {
    Take(JsString(Get(p, "name"), "Bridge"), BridgeNameLimit)
  }

  /** `controller:join-session` as written: the socket is added to the
      session it names, joins its room and becomes a controller of it; the
      host is told the new controller count. Nothing is undone for a session
      the socket was in before. */
  function ControllerJoin(st: State, cat: Catalog, id: SocketId, payload: Option<Json>): (r: Step)
    requires id in st.sockets
    ensures r.st.sockets.Keys == st.sockets.Keys && r.st.sessions.Keys == st.sessions.Keys
    ensures Arg(payload).JNull? ==> r == Step(st, [], None)
    ensures !Arg(payload).JNull? && JoinCode(Arg(payload)) !in st.sessions ==> r == Step(st, [], Some(SessionNotFound))
  {
    var p := Arg(payload);
    if p.JNull? then Step(st, [], None)
    else
      var code := JoinCode(p);
      if code !in st.sessions then Step(st, [], Some(SessionNotFound))
      else
        var s := st.sessions[code];
        var s1 := s.(controllers := s.controllers + {id});
        var st1 := State(st.sessions[code := s1], st.sockets[id := Enter(st.sockets[id], Controller, code)]);
        Step(st1, [Delivery(ToSocket(st1, s.host), ControllerConnected(id, |s1.controllers|))],
             Some(Accepted(ConfigPayload(code, s.config))))
  }

  /** A successful controller join adds the socket to exactly that session's
      controllers and reports the grown count to its host. */
  lemma {:induction false} ControllerJoinAdds(st: State, cat: Catalog, id: SocketId, payload: Option<Json>)
    requires id in st.sockets
    requires !Arg(payload).JNull? && JoinCode(Arg(payload)) in st.sessions
    ensures var r := ControllerJoin(st, cat, id, payload);
      var code := JoinCode(Arg(payload));
      var s := st.sessions[code];
      && r.st.sessions == st.sessions[code := s.(controllers := s.controllers + {id})]
      && r.st.sockets == st.sockets[id := Enter(st.sockets[id], Controller, code)]
      && r.out == [Delivery(ToSocket(st, s.host), ControllerConnected(id, |s.controllers + {id}|))]
      && r.ack == Some(Accepted(ConfigPayload(code, s.config)))
  {
  }

  /** `bridge:join-session` as written: like a controller join, adding to the
      bridge set and recording the bridge's name. */
  function BridgeJoin(st: State, cat: Catalog, id: SocketId, payload: Option<Json>): (r: Step)
    requires id in st.sockets
    ensures r.st.sockets.Keys == st.sockets.Keys && r.st.sessions.Keys == st.sessions.Keys
    ensures Arg(payload).JNull? ==> r == Step(st, [], None)
    ensures !Arg(payload).JNull? && JoinCode(Arg(payload)) !in st.sessions ==> r == Step(st, [], Some(SessionNotFound))
  {
    var p := Arg(payload);
    if p.JNull? then Step(st, [], None)
    else
      var code := JoinCode(p);
      if code !in st.sessions then Step(st, [], Some(SessionNotFound))
      else
        var s := st.sessions[code];
        var s1 := s.(bridges := s.bridges + {id});
        var name := BridgeName(p);
        var st1 := State(st.sessions[code := s1], st.sockets[id := Enter(st.sockets[id], Bridge, code).(bridgeName := name)]);
        Step(st1, [Delivery(ToSocket(st1, s.host), BridgeConnected(id, name, |s1.bridges|))],
             Some(Accepted(ConfigPayload(code, s.config))))
  }

  /** A successful bridge join adds the socket to exactly that session's
      bridges, records its name and reports the grown count to its host. */
  lemma {:induction false} BridgeJoinAdds(st: State, cat: Catalog, id: SocketId, payload: Option<Json>)
    requires id in st.sockets
    requires !Arg(payload).JNull? && JoinCode(Arg(payload)) in st.sessions
    ensures var r := BridgeJoin(st, cat, id, payload);
      var code := JoinCode(Arg(payload));
      var s := st.sessions[code];
      var name := BridgeName(Arg(payload));
      && r.st.sessions == st.sessions[code := s.(bridges := s.bridges + {id})]
      && r.st.sockets == st.sockets[id := Enter(st.sockets[id], Bridge, code).(bridgeName := name)]
      && r.out == [Delivery(ToSocket(st, s.host), BridgeConnected(id, name, |s.bridges + {id}|))]
      && r.ack == Some(Accepted(ConfigPayload(code, s.config)))
  {
  }

  lemma {:induction false} ControllerJoinValid(st: State, cat: Catalog, id: SocketId, payload: Option<Json>)
    requires Valid(st)
    requires id in st.sockets
    ensures Valid(ControllerJoin(st, cat, id, payload).st)
  {
    var p := Arg(payload);
    if !p.JNull? && JoinCode(p) in st.sessions {
      var code := JoinCode(p);
      var s := st.sessions[code];
      AdmitValid(st, code, s.(controllers := s.controllers + {id}), id, Enter(st.sockets[id], Controller, code));
    }
  }

  lemma {:induction false} BridgeJoinValid(st: State, cat: Catalog, id: SocketId, payload: Option<Json>)
    requires Valid(st)
    requires id in st.sockets
    ensures Valid(BridgeJoin(st, cat, id, payload).st)
  {
    var p := Arg(payload);
    if !p.JNull? && JoinCode(p) in st.sessions {
      var code := JoinCode(p);
      var s := st.sessions[code];
      AdmitValid(st, code, s.(bridges := s.bridges + {id}), id, Enter(st.sockets[id], Bridge, code).(bridgeName := BridgeName(p)));
    }
  }

  // ---------------------------------------------------------------------
  // controller:input

  /** `controller:input`: dropped unless the socket is a controller whose
      session is live; otherwise the event goes to the host and to every
      connected bridge of that session. The state never changes. */
  function ControllerInput(st: State, id: SocketId, payload: Option<Json>, now: int): (r: seq<Delivery>)
    requires id in st.sockets
    ensures SessionOf(st, id).1.None? || st.sockets[id].role != Controller ==> r == []
    ensures SessionOf(st, id).1.Some? && st.sockets[id].role == Controller ==>
      var s := SessionOf(st, id).1.value;
      && |r| == 2
      && r[0].to == ToSocket(st, s.host)
      && r[1].to == s.bridges * st.sockets.Keys
  {
    var (_, session) := SessionOf(st, id);
    if session.None? || st.sockets[id].role != Controller then []
    else
      var ev := SessionInput(id, now, Arg(payload));
      [Delivery(ToSocket(st, session.value.host), ev), Delivery(session.value.bridges * st.sockets.Keys, ev)]
  }

  /** Both deliveries carry the payload unchanged, stamped with the sender
      and the time. */
  lemma {:induction false} InputForwarded(st: State, id: SocketId, payload: Option<Json>, now: int)
    requires id in st.sockets
    ensures forall d | d in ControllerInput(st, id, payload, now) :: d.event == SessionInput(id, now, Arg(payload))
  {
  }

  /** Everyone an outbox reaches. */
  function Recipients(out: seq<Delivery>): set<SocketId> {
    set k, s | 0 <= k < |out| && s in out[k].to :: s
  }

  /** Input reaches exactly the connected host and bridges of the sender's
      session, and nobody when it is dropped. */
  lemma {:induction false} InputRecipients(st: State, id: SocketId, payload: Option<Json>, now: int)
    requires id in st.sockets
    ensures var r := ControllerInput(st, id, payload, now);
      var session := SessionOf(st, id).1;
      Recipients(r) == if session.Some? && st.sockets[id].role == Controller
        then ({session.value.host} + session.value.bridges) * st.sockets.Keys
        else {}
  {
    var r := ControllerInput(st, id, payload, now);
    var session := SessionOf(st, id).1;
    if session.Some? && st.sockets[id].role == Controller {
      var want := ({session.value.host} + session.value.bridges) * st.sockets.Keys;
      forall s | s in Recipients(r) ensures s in want {
        var k :| 0 <= k < |r| && s in r[k].to;
      }
      forall s | s in want ensures s in Recipients(r) {
        if s == session.value.host {
          assert s in r[0].to;
        } else {
          assert s in r[1].to;
        }
      }
    }
  }

  // ---------------------------------------------------------------------
  // disconnect

  /** The name a bridge-disconnected event carries. */
  function LeavingName(d: SocketData): string {
    if d.bridgeName != "" then d.bridgeName else "Bridge"
  }

  /** The session after a controller or bridge left it. */
  function Without(s: Session, id: SocketId, role: Role): (r: Session)
    ensures Members(r) <= Members(s)
  {
    match role
    case Controller => s.(controllers := s.controllers - {id})
    case Bridge => s.(bridges := s.bridges - {id})
    case _ => s
  }

  /** Whether the idle collection deletes a session at time `now`. */
  predicate Idle(s: Session, now: int) {
    |s.controllers| == 0 && |s.bridges| == 0 && now - s.createdAt > IdleLimit
  }

  /** `disconnect`. The socket has already left every room. A host closes its
      session with `host_disconnected`; a controller or bridge leaves its set
      and the host is told the new count; an idle session is then deleted. */
  function Disconnect(st: State, id: SocketId, now: int): (r: Step)
    requires id in st.sockets
    ensures r.ack.None?
    ensures r.st.sockets == st.sockets - {id}
    ensures forall c | c in r.st.sessions :: c in st.sessions
  {
    var d := st.sockets[id];
    var st0 := st.(sockets := st.sockets - {id});
    var (code, session) := SessionOf(st, id);
    if session.None? then Step(st0, [], None)
    else if d.role == Host then
      var (st1, out) := CloseSession(st0, code, HostDisconnected);
      Step(st1, out, None)
    else
      var s := Without(session.value, id, d.role);
      var out :=
        match d.role
        case Controller => [Delivery(ToSocket(st0, s.host), ControllerDisconnected(id, |s.controllers|))]
        case Bridge => [Delivery(ToSocket(st0, s.host), BridgeDisconnected(id, LeavingName(d), |s.bridges|))]
        case _ => [];
      if Idle(s, now)
      then Step(st0.(sessions := st.sessions - {code}), out, None)
      else Step(st0.(sessions := st.sessions[code := s]), out, None)
  }

  /** A socket without a live session leaves nothing else behind. */
  lemma {:induction false} DisconnectUnknown(st: State, id: SocketId, now: int)
    requires id in st.sockets && SessionOf(st, id).1.None?
    ensures var r := Disconnect(st, id, now);
      r.st.sessions == st.sessions && r.out == []
  {
  }

  /** A host's disconnect closes its session, telling the rest of the room. */
  lemma {:induction false} DisconnectHost(st: State, id: SocketId, now: int)
    requires id in st.sockets && SessionOf(st, id).1.Some? && st.sockets[id].role == Host
    ensures var r := Disconnect(st, id, now);
      var code := SessionOf(st, id).0;
      && r.st.sessions == st.sessions - {code}
      && r.out == [Delivery(Room(st, code) - {id}, SessionClosed(code, HostDisconnected))]
  {
    NormalizeCodeIdempotent(st.sockets[id].sessionCode);
    var code := SessionOf(st, id).0;
    assert Room(st.(sockets := st.sockets - {id}), code) == Room(st, code) - {id};
  }

  /** A controller or bridge leaves its own set; the session survives unless
      it is then idle. */
  lemma {:induction false} DisconnectMember(st: State, id: SocketId, now: int)
    requires id in st.sockets && SessionOf(st, id).1.Some? && !st.sockets[id].role.Host?
    ensures var r := Disconnect(st, id, now);
      var code := SessionOf(st, id).0;
      var s := Without(SessionOf(st, id).1.value, id, st.sockets[id].role);
      r.st.sessions == if Idle(s, now) then st.sessions - {code} else st.sessions[code := s]
  {
  }

  /** A leaving controller or bridge is reported to the host exactly once,
      with the size of the set it left. */
  lemma {:induction false} DisconnectNotifies(st: State, id: SocketId, now: int)
    requires id in st.sockets
    requires SessionOf(st, id).1.Some?
    requires st.sockets[id].role == Controller || st.sockets[id].role == Bridge
    ensures var r := Disconnect(st, id, now);
      var s := SessionOf(st, id).1.value;
      var d := st.sockets[id];
      && |r.out| == 1
      && r.out[0].to == ToSocket(st, s.host) - {id}
      && r.out[0].event == if d.role == Controller
           then ControllerDisconnected(id, |s.controllers - {id}|)
           else BridgeDisconnected(id, LeavingName(d), |s.bridges - {id}|)
  {
    var d := st.sockets[id];
    var st0 := st.(sockets := st.sockets - {id});
    var s := SessionOf(st, id).1.value;
    assert ToSocket(st0, s.host) == ToSocket(st, s.host) - {id};
    if d.role == Controller {
      assert Without(s, id, d.role).controllers == s.controllers - {id};
    } else {
      assert Without(s, id, d.role).bridges == s.bridges - {id};
    }
  }

  lemma {:induction false} DisconnectValid(st: State, id: SocketId, now: int)
    requires Valid(st)
    requires id in st.sockets
    ensures Valid(Disconnect(st, id, now).st)
  {
    var st0 := st.(sockets := st.sockets - {id});
    assert Valid(st0);
    var (code, session) := SessionOf(st, id);
    if session.Some? && st.sockets[id].role == Host {
      CloseSessionValid(st0, code, HostDisconnected);
    } else if session.Some? {
      ShrinkValid(st0, code, Without(session.value, id, st.sockets[id].role));
    }
  }

  // ---------------------------------------------------------------------
  // refreshSessions

  /** Whether `refreshSessions(active)` re-announces a session's config: when
      re-resolving changed it, when no profile id is given, or when the
      session uses the given profile. */
  predicate ShouldEmit(cat: Catalog, s: Session, active: Option<string>) {
    var resolved := ResolveSessionConfig(cat, s.config);
    resolved != s.config || active.None? || active.value == "" || resolved.gameProfileId == active.value
  }

  /** Every live session with its config resolved against the catalog. */
  function Refreshed(st: State, cat: Catalog): (r: map<string, Session>)
    ensures r.Keys == st.sessions.Keys
  {
    map c | c in st.sessions :: st.sessions[c].(config := ResolveSessionConfig(cat, st.sessions[c].config))
  }

  /** The codes in `order` whose session is re-announced, in that order. */
  function Announced(st: State, cat: Catalog, active: Option<string>, order: seq<string>): (r: seq<string>)
    requires forall k | 0 <= k < |order| :: order[k] in st.sessions
    ensures forall c | c in r :: c in order
    ensures forall k | 0 <= k < |order| :: order[k] in r <==> ShouldEmit(cat, st.sessions[order[k]], active)
  {
    if |order| == 0 then []
    else
      var rest := Announced(st, cat, active, order[1..]);
      assert forall k | 1 <= k < |order| :: order[k] == order[1..][k - 1];
      (if ShouldEmit(cat, st.sessions[order[0]], active) then [order[0]] else []) + rest
  }

  function RefreshDelivery(st: State, cat: Catalog, code: string): Delivery
    requires code in st.sessions
  {
    var config := ResolveSessionConfig(cat, st.sessions[code].config);
    Delivery(Room(st, code), ConfigUpdated(ConfigPayload(code, config)))
  }

  /** One `session:config` delivery per code, in order. */
  function RefreshOutbox(st: State, cat: Catalog, codes: seq<string>): seq<Delivery>
    requires forall c | c in codes :: c in st.sessions
  {
    seq(|codes|, k requires 0 <= k < |codes| => RefreshDelivery(st, cat, codes[k]))
  }

  /** The outbox for `codes` announces exactly those codes, each with its
      session's resolved config, to its room. */
  lemma {:induction false} RefreshOutboxCodes(st: State, cat: Catalog, codes: seq<string>, code: string)
    requires forall c | c in codes :: c in st.sessions
    ensures var out := RefreshOutbox(st, cat, codes);
      (exists k | 0 <= k < |out| :: out[k].event.ConfigUpdated? && out[k].event.payload.code == code)
      <==> code in codes
    ensures var out := RefreshOutbox(st, cat, codes);
      forall k | 0 <= k < |out| && out[k].event.ConfigUpdated? && out[k].event.payload.code == code ::
        out[k] == RefreshDelivery(st, cat, code)
  {
    var out := RefreshOutbox(st, cat, codes);
    if code in codes {
      var k :| 0 <= k < |codes| && codes[k] == code;
      assert out[k].event.payload.code == code;
    }
  }

  /** `refreshSessions(active)` after a profile was updated (`active` is its
      id) or deleted (`None`). `order` is the iteration order of the sessions
      map, which the model does not track: any listing of the live codes
      without repeats. */
  function RefreshSessions(st: State, cat: Catalog, active: Option<string>, order: seq<string>): (r: (State, seq<Delivery>))
    requires forall c :: c in order <==> c in st.sessions
    requires Distinct(order)
    ensures r.0.sockets == st.sockets && r.0.sessions.Keys == st.sessions.Keys
    ensures forall c | c in st.sessions ::
      && r.0.sessions[c].config == ResolveSessionConfig(cat, st.sessions[c].config)
      && r.0.sessions[c] == st.sessions[c].(config := r.0.sessions[c].config)
    ensures ValidCatalog(cat) ==> forall c | c in r.0.sessions ::
      r.0.sessions[c].config.gameProfileId in ProfileIds(cat) && r.0.sessions[c].config.layoutId in LayoutIds(cat)
  {
    var codes := Announced(st, cat, active, order);
    (st.(sessions := Refreshed(st, cat)), RefreshOutbox(st, cat, codes))
  }

  /** A session's config is announced after a refresh exactly when
      `ShouldEmit` holds for it, to everyone in its room. */
  lemma {:induction false} RefreshAnnounces(st: State, cat: Catalog, active: Option<string>, order: seq<string>, code: string)
    requires forall c :: c in order <==> c in st.sessions
    requires Distinct(order)
    requires code in st.sessions
    ensures var out := RefreshSessions(st, cat, active, order).1;
      (exists k | 0 <= k < |out| :: out[k].event.ConfigUpdated? && out[k].event.payload.code == code)
      <==> ShouldEmit(cat, st.sessions[code], active)
    ensures var out := RefreshSessions(st, cat, active, order).1;
      forall k | 0 <= k < |out| && out[k].event.ConfigUpdated? && out[k].event.payload.code == code ::
        out[k] == RefreshDelivery(st, cat, code)
  {
    var codes := Announced(st, cat, active, order);
    assert RefreshOutbox(st, cat, codes) == RefreshSessions(st, cat, active, order).1;
    RefreshOutboxCodes(st, cat, codes, code);
    var j :| 0 <= j < |order| && order[j] == code;
    assert code in codes <==> ShouldEmit(cat, st.sessions[code], active);
  }

  /** Against a valid catalog, re-resolving a refreshed config changes
      nothing. */
  lemma {:induction false} RefreshSettles(st: State, cat: Catalog)
    requires ValidCatalog(cat)
    ensures var st1 := st.(sessions := Refreshed(st, cat));
      Refreshed(st1, cat) == st1.sessions
  {
    var st1 := st.(sessions := Refreshed(st, cat));
    forall c | c in st1.sessions
      ensures Refreshed(st1, cat)[c] == st1.sessions[c]
    {
      ResolveSessionConfigIdempotent(cat, st.sessions[c].config);
    }
  }

  /** So after one refresh, a second one only re-announces by the
      profile-id rule. */
  lemma {:induction false} RefreshAgain(st: State, cat: Catalog, active: Option<string>, order: seq<string>)
    requires ValidCatalog(cat)
    requires forall c :: c in order <==> c in st.sessions
    requires Distinct(order)
    ensures var st1 := RefreshSessions(st, cat, active, order).0;
      && RefreshSessions(st1, cat, active, order).0 == st1
      && forall c | c in st1.sessions ::
           ShouldEmit(cat, st1.sessions[c], active) <==>
             (active.None? || active.value == "" || st1.sessions[c].config.gameProfileId == active.value)
  {
    RefreshSettles(st, cat);
    var st1 := RefreshSessions(st, cat, active, order).0;
    assert st1 == st.(sessions := Refreshed(st, cat));
    forall c | c in st1.sessions
      ensures ResolveSessionConfig(cat, st1.sessions[c].config) == st1.sessions[c].config
    {
      assert Refreshed(st1, cat)[c] == st1.sessions[c];
    }
  }

  lemma {:induction false} RefreshValid(st: State, cat: Catalog, active: Option<string>, order: seq<string>)
    requires Valid(st)
    requires forall c :: c in order <==> c in st.sessions
    requires Distinct(order)
    ensures Valid(RefreshSessions(st, cat, active, order).0)
  {
    var st1 := RefreshSessions(st, cat, active, order).0;
    forall c | c in st1.sessions ensures Members(st1.sessions[c]) == Members(st.sessions[c]) {
    }
  }
}
