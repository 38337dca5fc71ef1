/** Session switching in the relay. The join handlers in `server.js` and
    `appServer.js` add a socket to the session it names without taking it out
    of the one it was in, so after a switch the socket stays in the old
    session's member set and room: the old host hears no disconnect, and the
    old session's input and config updates still reach it (the `Relay.*Join`
    members model that as written, `AsWritten*` below exhibit it).

    This module adds the missing step, `Detach`, runs it before every join
    and session creation, and proves the isolation the relay's regression
    script expects: each socket belongs only to the session its data names,
    and input and config updates stay inside their session. */
module RelayIsolation {
  import opened Wrappers
  import opened Text
  import opened JsonValue
  import opened Profiles
  import opened Catalogs
  import opened Relay

  /** Membership agrees with the sockets' own data: a connected controller,
      bridge or host of a session has that role and names that session, and
      a socket is in no room but its own session's. */
  predicate Isolated(st: State) {
    && (forall c, id | c in st.sessions && id in st.sockets && id in st.sessions[c].controllers ::
          st.sockets[id].role == Controller && st.sockets[id].sessionCode == c)
    && (forall c, id | c in st.sessions && id in st.sockets && id in st.sessions[c].bridges ::
          st.sockets[id].role == Bridge && st.sockets[id].sessionCode == c)
    && (forall c | c in st.sessions && st.sessions[c].host in st.sockets ::
          st.sockets[st.sessions[c].host].role == Host && st.sockets[st.sessions[c].host].sessionCode == c)
    && (forall id | id in st.sockets :: st.sockets[id].rooms <= {st.sockets[id].sessionCode})
  }

  lemma {:induction false} InitialIsolated()
    ensures Isolated(Initial)
  {
  }

  lemma {:induction false} ConnectIsolated(st: State, id: SocketId)
    requires Isolated(st) && id !in st.sockets
    requires forall c | c in st.sessions :: id !in Members(st.sessions[c])
    ensures Isolated(Connect(st, id))
  {
  }

  /** Under the invariant, a socket's stored code is already normal, so
      `getSessionFromSocket` finds the session under that very code. */
  lemma {:induction false} StoredCodeNormal(st: State, id: SocketId)
    requires Valid(st) && id in st.sockets
    ensures SessionOf(st, id).0 == st.sockets[id].sessionCode
  {
    NormalizeCodeFixed(st.sockets[id].sessionCode);
  }

  /** A socket's data once it belongs to no session. */
  function Left(d: SocketData): (r: SocketData)
    ensures WellFormedData(r) && r.rooms == {}
  {
    d.(role := NoRole, sessionCode := "", rooms := {})
  }

  /** Take a socket out of the session it is in: a host closes its session
      (reason `host_new_session`, as `host:create-session` does), a controller
      or bridge leaves its set and the host is told the new count; the socket
      then leaves its room and holds no role. */
  function Detach(st: State, id: SocketId): (r: (State, seq<Delivery>))
    requires id in st.sockets
    ensures r.0.sockets == st.sockets[id := Left(st.sockets[id])]
    ensures forall c | c in r.0.sessions :: c in st.sessions
  {
    var d := st.sockets[id];
    var (code, session) := SessionOf(st, id);
    var sockets := st.sockets[id := Left(d)];
    if session.None? then (st.(sockets := sockets), [])
    else
      var s := session.value;
      if d.role == Host && s.host == id then
        var (st1, out) := CloseSession(st, code, HostNewSession);
        (st1.(sockets := sockets), out)
      else if d.role == Controller && id in s.controllers then
        var s1 := s.(controllers := s.controllers - {id});
        (State(st.sessions[code := s1], sockets), [Delivery(ToSocket(st, s.host), ControllerDisconnected(id, |s1.controllers|))])
      else if d.role == Bridge && id in s.bridges then
        var s1 := s.(bridges := s.bridges - {id});
        (State(st.sessions[code := s1], sockets), [Delivery(ToSocket(st, s.host), BridgeDisconnected(id, LeavingName(d), |s1.bridges|))])
      else (st.(sockets := sockets), [])
  }

  /** Only the socket's own session changes: a session it neither hosts nor
      belongs to is kept as it was. */
  lemma {:induction false} DetachKeepsOthers(st: State, id: SocketId)
    requires Valid(st) && Isolated(st) && id in st.sockets
    ensures var r := Detach(st, id);
      forall c | c in st.sessions && c != st.sockets[id].sessionCode :: c in r.0.sessions && r.0.sessions[c] == st.sessions[c]
  {
    StoredCodeNormal(st, id);
  }

  /** Under the invariants a socket is a member of no session other than
      the one its data names. */
  lemma {:induction false} MemberOnlyOfOwn(st: State, id: SocketId)
    requires Valid(st) && Isolated(st) && id in st.sockets
    ensures forall c | c in st.sessions && id in Members(st.sessions[c]) :: c == st.sockets[id].sessionCode
  {
  }

  /** Dropping a socket's role and room keeps both invariants once it is a
      member of no session. */
  lemma {:induction false} ResetIsolated(st: State, id: SocketId)
    requires Valid(st) && Isolated(st) && id in st.sockets
    requires forall c | c in st.sessions :: id !in Members(st.sessions[c])
    ensures var st1 := st.(sockets := st.sockets[id := Left(st.sockets[id])]);
      Valid(st1) && Isolated(st1)
  {
  }

  /** Replacing a session by one with the same host and no new members
      keeps isolation. */
  lemma {:induction false} ShrinkIsolated(st: State, code: string, s: Session)
    requires Isolated(st) && code in st.sessions
    requires s.host == st.sessions[code].host
    requires s.controllers <= st.sessions[code].controllers && s.bridges <= st.sessions[code].bridges
    ensures Isolated(st.(sessions := st.sessions[code := s]))
  {
  }

  /** Removing sessions keeps isolation. */
  lemma {:induction false} DropIsolated(st: State, sessions: map<string, Session>)
    requires Isolated(st)
    requires forall c | c in sessions :: c in st.sessions && sessions[c] == st.sessions[c]
    ensures Isolated(st.(sessions := sessions))
  {
  }

  /** The sessions after `Detach`, before the socket's own data is reset:
      its own session lost it, or was closed when it was the host. */
  lemma {:induction false} DetachSessions(st: State, id: SocketId)
    requires Valid(st) && Isolated(st) && id in st.sockets
    ensures var st1 := st.(sessions := Detach(st, id).0.sessions);
      && Valid(st1) && Isolated(st1)
      && forall c | c in st1.sessions :: id !in Members(st1.sessions[c])
  {
    StoredCodeNormal(st, id);
    MemberOnlyOfOwn(st, id);
    var d := st.sockets[id];
    var (code, session) := SessionOf(st, id);
    var st1 := st.(sessions := Detach(st, id).0.sessions);
    if session.Some? {
      var s := session.value;
      if d.role == Host && s.host == id {
        CloseSessionValid(st, code, HostNewSession);
        DropIsolated(st, st1.sessions);
      } else if d.role == Controller && id in s.controllers {
        ShrinkValid(st, code, s.(controllers := s.controllers - {id}));
        ShrinkIsolated(st, code, s.(controllers := s.controllers - {id}));
      } else if d.role == Bridge && id in s.bridges {
        ShrinkValid(st, code, s.(bridges := s.bridges - {id}));
        ShrinkIsolated(st, code, s.(bridges := s.bridges - {id}));
      } else {
        assert st1 == st;
      }
    } else {
      assert st1 == st;
    }
  }

  /** After `Detach` the socket is a member of no session, and both
      invariants still hold. */
  lemma {:induction false} DetachIsolated(st: State, id: SocketId)
    requires Valid(st) && Isolated(st) && id in st.sockets
    ensures var r := Detach(st, id);
      && Valid(r.0) && Isolated(r.0)
      && forall c | c in r.0.sessions :: id !in Members(r.0.sessions[c])
  {
    DetachSessions(st, id);
    var st1 := st.(sessions := Detach(st, id).0.sessions);
    ResetIsolated(st1, id);
    assert Detach(st, id).0 == st1.(sockets := st1.sockets[id := Left(st1.sockets[id])]);
  }

  /** Registering a new session hosted by a socket that belongs to no
      session keeps isolation. */
  lemma {:induction false} NewSessionIsolated(st: State, code: string, s: Session, id: SocketId, d: SocketData)
    requires Isolated(st) && id in st.sockets && code !in st.sessions
    requires forall c | c in st.sessions :: id !in Members(st.sessions[c])
    requires s.host == id && s.controllers == {} && s.bridges == {}
    requires d.role == Host && d.sessionCode == code && d.rooms <= {code}
    ensures Isolated(State(st.sessions[code := s], st.sockets[id := d]))
  {
  }

  /** Adding a socket to the set for `d.role` of the session `code` keeps
      isolation when the socket belongs to no other session, and to that one
      at most already with that role. */
  lemma {:induction false} JoinIsolated(st: State, code: string, s: Session, id: SocketId, d: SocketData)
    requires Isolated(st) && id in st.sockets && code in st.sessions
    requires forall c | c in st.sessions && id in Members(st.sessions[c]) :: c == code && st.sockets[id].role == d.role
    requires d.role == Controller || d.role == Bridge
    requires d.sessionCode == code && d.rooms <= {code}
    requires s == if d.role == Controller
      then st.sessions[code].(controllers := st.sessions[code].controllers + {id})
      else st.sessions[code].(bridges := st.sessions[code].bridges + {id})
    ensures Isolated(State(st.sessions[code := s], st.sockets[id := d]))
  {
    assert st.sessions[code].host != id;
  }

  /** Detach only when the socket is not already in `code` with `role`. */
  function SwitchTo(st: State, id: SocketId, role: Role, code: string): (r: (State, seq<Delivery>))
    requires id in st.sockets
    ensures st.sockets[id].role == role && st.sockets[id].sessionCode == code ==> r == (st, [])
    ensures !(st.sockets[id].role == role && st.sockets[id].sessionCode == code) ==> r == Detach(st, id)
  {
    if st.sockets[id].role == role && st.sockets[id].sessionCode == code then (st, []) else Detach(st, id)
  }

  /** After a switch the socket is a member of no session but, possibly,
      `code` — and of that one only with `role`. */
  lemma {:induction false} SwitchToIsolated(st: State, id: SocketId, role: Role, code: string)
    requires Valid(st) && Isolated(st) && id in st.sockets
    ensures var r := SwitchTo(st, id, role, code);
      && Valid(r.0) && Isolated(r.0) && id in r.0.sockets
      && forall c | c in r.0.sessions && id in Members(r.0.sessions[c]) ::
           c == code && r.0.sockets[id].role == role && r.0.sockets[id].sessionCode == code
  {
    if !(st.sockets[id].role == role && st.sockets[id].sessionCode == code) {
      DetachIsolated(st, id);
    } else {
      forall c | c in st.sessions && id in Members(st.sessions[c]) ensures c == code {
      }
    }
  }

  // ---------------------------------------------------------------------
  // Corrected handlers

  /** `host:create-session` with the socket first detached from whatever
      session it was in. */
  function FixedCreateSession(st: State, cat: Catalog, id: SocketId, payload: Option<Json>, code: string, now: int): (r: Step)
    requires id in st.sockets
    requires IsSessionCode(code) && code !in Detach(st, id).0.sessions
    ensures r.out == Detach(st, id).1
    ensures r.ack.Some? <==> !Arg(payload).JNull?
    ensures r.ack.None? ==> r.st == Detach(st, id).0
    ensures r.ack.Some? ==> id in r.st.sockets && r.st.sockets[id] == Enter(Left(st.sockets[id]), Host, code) && code in r.st.sessions
  {
    var (st1, out) := Detach(st, id);
    var p := Arg(payload);
    if p.JNull? then Step(st1, out, None)
    else
      var config := ResolveSessionConfig(cat, RequestedConfig(p));
      var st2 := State(
        st1.sessions[code := Session(id, {}, {}, now, config)],
        st1.sockets[id := Enter(st1.sockets[id], Host, code)]);
      Step(st2, out, Some(Accepted(ConfigPayload(code, config))))
  }

  lemma {:induction false} FixedCreateSessionIsolated(st: State, cat: Catalog, id: SocketId, payload: Option<Json>, code: string, now: int)
    requires Valid(st) && Isolated(st) && id in st.sockets
    requires IsSessionCode(code) && code !in Detach(st, id).0.sessions
    ensures var r := FixedCreateSession(st, cat, id, payload, code, now);
      Valid(r.st) && Isolated(r.st)
  {
    DetachIsolated(st, id);
    var st1 := Detach(st, id).0;
    if !Arg(payload).JNull? {
      var config := ResolveSessionConfig(cat, RequestedConfig(Arg(payload)));
      AdmitValid(st1, code, Session(id, {}, {}, now, config), id, Enter(st1.sockets[id], Host, code));
      NewSessionIsolated(st1, code, Session(id, {}, {}, now, config), id, Enter(st1.sockets[id], Host, code));
    }
  }

  /** `controller:join-session` with the socket detached from its previous
      session once the requested session is found. A host that asks to join
      its own session as a controller closes it, and so finds nothing. */
  function FixedControllerJoin(st: State, cat: Catalog, id: SocketId, payload: Option<Json>): (r: Step)
    requires id in st.sockets
    ensures Arg(payload).JNull? ==> r == Step(st, [], None)
    ensures !Arg(payload).JNull? && JoinCode(Arg(payload)) !in st.sessions ==> r == Step(st, [], Some(SessionNotFound))
    ensures !Arg(payload).JNull? && JoinCode(Arg(payload)) in st.sessions ==>
      var sw := SwitchTo(st, id, Controller, JoinCode(Arg(payload)));
      && |sw.1| <= |r.out| && r.out[..|sw.1|] == sw.1
      && (JoinCode(Arg(payload)) in sw.0.sessions <==> r.ack.Some? && r.ack.value.Accepted?)
  {
    var p := Arg(payload);
    if p.JNull? then Step(st, [], None)
    else
      var code := JoinCode(p);
      if code !in st.sessions then Step(st, [], Some(SessionNotFound))
      else
        var (st1, out) := SwitchTo(st, id, Controller, code);
        if code !in st1.sessions then Step(st1, out, Some(SessionNotFound))
        else
          var s := st1.sessions[code];
          var s1 := s.(controllers := s.controllers + {id});
          var st2 := State(st1.sessions[code := s1], st1.sockets[id := Enter(st1.sockets[id], Controller, code)]);
          Step(st2, out + [Delivery(ToSocket(st2, s.host), ControllerConnected(id, |s1.controllers|))],
               Some(Accepted(ConfigPayload(code, s.config))))
  }

  /** `bridge:join-session` with the same correction. */
  function FixedBridgeJoin(st: State, cat: Catalog, id: SocketId, payload: Option<Json>): (r: Step)
    requires id in st.sockets
    ensures Arg(payload).JNull? ==> r == Step(st, [], None)
    ensures !Arg(payload).JNull? && JoinCode(Arg(payload)) !in st.sessions ==> r == Step(st, [], Some(SessionNotFound))
    ensures !Arg(payload).JNull? && JoinCode(Arg(payload)) in st.sessions ==>
      var sw := SwitchTo(st, id, Bridge, JoinCode(Arg(payload)));
      && |sw.1| <= |r.out| && r.out[..|sw.1|] == sw.1
      && (JoinCode(Arg(payload)) in sw.0.sessions <==> r.ack.Some? && r.ack.value.Accepted?)
  {
    var p := Arg(payload);
    if p.JNull? then Step(st, [], None)
    else
      var code := JoinCode(p);
      if code !in st.sessions then Step(st, [], Some(SessionNotFound))
      else
        var (st1, out) := SwitchTo(st, id, Bridge, code);
        if code !in st1.sessions then Step(st1, out, Some(SessionNotFound))
        else
          var s := st1.sessions[code];
          var s1 := s.(bridges := s.bridges + {id});
          var name := BridgeName(p);
          var st2 := State(st1.sessions[code := s1], st1.sockets[id := Enter(st1.sockets[id], Bridge, code).(bridgeName := name)]);
          Step(st2, out + [Delivery(ToSocket(st2, s.host), BridgeConnected(id, name, |s1.bridges|))],
               Some(Accepted(ConfigPayload(code, s.config))))
  }

  lemma {:induction false} FixedControllerJoinIsolated(st: State, cat: Catalog, id: SocketId, payload: Option<Json>)
    requires Valid(st) && Isolated(st) && id in st.sockets
    ensures var r := FixedControllerJoin(st, cat, id, payload);
      Valid(r.st) && Isolated(r.st)
  {
    var p := Arg(payload);
    if !p.JNull? && JoinCode(p) in st.sessions {
      var code := JoinCode(p);
      SwitchToIsolated(st, id, Controller, code);
      var st1 := SwitchTo(st, id, Controller, code).0;
      if code in st1.sessions {
        var s := st1.sessions[code];
        assert IsSessionCode(code);
        AdmitValid(st1, code, s.(controllers := s.controllers + {id}), id, Enter(st1.sockets[id], Controller, code));
        JoinIsolated(st1, code, s.(controllers := s.controllers + {id}), id, Enter(st1.sockets[id], Controller, code));
      }
    }
  }

  lemma {:induction false} FixedBridgeJoinIsolated(st: State, cat: Catalog, id: SocketId, payload: Option<Json>)
    requires Valid(st) && Isolated(st) && id in st.sockets
    ensures var r := FixedBridgeJoin(st, cat, id, payload);
      Valid(r.st) && Isolated(r.st)
  {
    var p := Arg(payload);
    if !p.JNull? && JoinCode(p) in st.sessions {
      var code := JoinCode(p);
      SwitchToIsolated(st, id, Bridge, code);
      var st1 := SwitchTo(st, id, Bridge, code).0;
      if code in st1.sessions {
        var s := st1.sessions[code];
        assert IsSessionCode(code);
        AdmitValid(st1, code, s.(bridges := s.bridges + {id}), id, Enter(st1.sockets[id], Bridge, code).(bridgeName := BridgeName(p)));
        JoinIsolated(st1, code, s.(bridges := s.bridges + {id}), id, Enter(st1.sockets[id], Bridge, code).(bridgeName := BridgeName(p)));
      }
    }
  }

  // ---------------------------------------------------------------------
  // The unchanged handlers keep the invariant

  lemma {:induction false} UpdateConfigIsolated(st: State, cat: Catalog, id: SocketId, payload: Option<Json>)
    requires Isolated(st) && id in st.sockets
    ensures Isolated(UpdateConfig(st, cat, id, payload).st)
  {
    var (code, session) := SessionOf(st, id);
    if session.Some? && st.sockets[id].role == Host && !Arg(payload).JNull? {
      UpdateConfigReplaces(st, cat, id, payload);
      var config := ResolveSessionConfig(cat, RequestedConfig(Arg(payload)));
      ShrinkIsolated(st, code, session.value.(config := config));
    }
  }

  lemma {:induction false} DisconnectIsolated(st: State, id: SocketId, now: int)
    requires Valid(st) && Isolated(st) && id in st.sockets
    ensures Isolated(Disconnect(st, id, now).st)
  {
    var st0 := st.(sockets := st.sockets - {id});
    assert Isolated(st0);
    var (code, session) := SessionOf(st, id);
    var r := Disconnect(st, id, now);
    if session.None? {
      DisconnectUnknown(st, id, now);
      assert r.st == st0;
    } else if st.sockets[id].role.Host? {
      DisconnectHost(st, id, now);
      DropIsolated(st0, r.st.sessions);
      assert r.st == st0.(sessions := r.st.sessions);
    } else {
      DisconnectMember(st, id, now);
      var s := Without(session.value, id, st.sockets[id].role);
      if Idle(s, now) {
        DropIsolated(st0, r.st.sessions);
      } else {
        ShrinkIsolated(st0, code, s);
      }
      assert r.st == st0.(sessions := r.st.sessions);
    }
  }

  lemma {:induction false} RefreshIsolated(st: State, cat: Catalog, active: Option<string>, order: seq<string>)
    requires Isolated(st)
    requires forall c :: c in order <==> c in st.sessions
    requires Distinct(order)
    ensures Isolated(RefreshSessions(st, cat, active, order).0)
  {
  }

  // ---------------------------------------------------------------------
  // What isolation buys

  /** Input reaches only sockets that name the sender's session. */
  lemma {:induction false} InputStaysInSession(st: State, id: SocketId, payload: Option<Json>, now: int)
    requires Isolated(st) && id in st.sockets
    ensures forall y | y in Recipients(ControllerInput(st, id, payload, now)) ::
      y in st.sockets && st.sockets[y].sessionCode == SessionOf(st, id).0
  {
    InputRecipients(st, id, payload, now);
  }

  /** A config update reaches only sockets that name the host's session. */
  lemma {:induction false} ConfigStaysInSession(st: State, cat: Catalog, id: SocketId, payload: Option<Json>)
    requires Isolated(st) && id in st.sockets
    ensures var out := UpdateConfig(st, cat, id, payload).out;
      forall y | y in Recipients(out) :: y in st.sockets && st.sockets[y].sessionCode == SessionOf(st, id).0
  {
    var out := UpdateConfig(st, cat, id, payload).out;
    forall y | y in Recipients(out)
      ensures y in st.sockets && st.sockets[y].sessionCode == SessionOf(st, id).0
    {
      var k :| 0 <= k < |out| && y in out[k].to;
      assert out[k].to == Room(st, SessionOf(st, id).0);
    }
  }

  /** A bridge that switches from session A to session B: the old host is
      told exactly once that it left, the new host that it arrived, and
      afterwards the bridge is no longer in A. */
  lemma {:induction false} BridgeSwitchNotifiesOldHost(st: State, cat: Catalog, id: SocketId, payload: Option<Json>)
    requires Valid(st) && Isolated(st) && id in st.sockets
    requires st.sockets[id].role == Bridge && SessionOf(st, id).1.Some? && id in SessionOf(st, id).1.value.bridges
    requires !Arg(payload).JNull? && JoinCode(Arg(payload)) in st.sessions
    requires JoinCode(Arg(payload)) != SessionOf(st, id).0
    ensures var r := FixedBridgeJoin(st, cat, id, payload);
      var a := SessionOf(st, id);
      var d := st.sockets[id];
      && |r.out| == 2
      && r.out[0] == Delivery(ToSocket(st, a.1.value.host), BridgeDisconnected(id, LeavingName(d), |a.1.value.bridges - {id}|))
      && r.out[1].event.BridgeConnected?
      && r.st.sockets[id].sessionCode == JoinCode(Arg(payload))
      && id !in r.st.sessions[a.0].bridges
  {
    StoredCodeNormal(st, id);
  }

  /** The same for a controller. */
  lemma {:induction false} ControllerSwitchNotifiesOldHost(st: State, cat: Catalog, id: SocketId, payload: Option<Json>)
    requires Valid(st) && Isolated(st) && id in st.sockets
    requires st.sockets[id].role == Controller && SessionOf(st, id).1.Some? && id in SessionOf(st, id).1.value.controllers
    requires !Arg(payload).JNull? && JoinCode(Arg(payload)) in st.sessions
    requires JoinCode(Arg(payload)) != SessionOf(st, id).0
    ensures var r := FixedControllerJoin(st, cat, id, payload);
      var a := SessionOf(st, id);
      && |r.out| == 2
      && r.out[0] == Delivery(ToSocket(st, a.1.value.host), ControllerDisconnected(id, |a.1.value.controllers - {id}|))
      && r.out[1].event.ControllerConnected?
      && r.st.sockets[id].sessionCode == JoinCode(Arg(payload))
      && id !in r.st.sessions[a.0].controllers
  {
    StoredCodeNormal(st, id);
  }

  /** After a successful switch to B, neither input from a controller of
      any other session nor a config update by the host of any other session
      reaches the switched socket. */
  lemma {:induction false} SwitchSilencesOldSession(st: State, cat: Catalog, id: SocketId, payload: Option<Json>,
                                                    x: SocketId, input: Option<Json>, now: int, update: Option<Json>)
    requires Valid(st) && Isolated(st) && id in st.sockets
    requires FixedBridgeJoin(st, cat, id, payload).ack.Some? && FixedBridgeJoin(st, cat, id, payload).ack.value.Accepted?
    requires x in FixedBridgeJoin(st, cat, id, payload).st.sockets
    requires SessionOf(FixedBridgeJoin(st, cat, id, payload).st, x).0 != JoinCode(Arg(payload))
    ensures var st1 := FixedBridgeJoin(st, cat, id, payload).st;
      && id !in Recipients(ControllerInput(st1, x, input, now))
      && id !in Recipients(UpdateConfig(st1, cat, x, update).out)
  {
    var r := FixedBridgeJoin(st, cat, id, payload);
    FixedBridgeJoinIsolated(st, cat, id, payload);
    InputStaysInSession(r.st, x, input, now);
    ConfigStaysInSession(r.st, cat, x, update);
  }

  // ---------------------------------------------------------------------
  // The handlers as written

  /** As written, a bridge that switches from A to B stays a bridge of A:
      the old host is not told, and input from A's controllers still
      reaches it. */
  lemma {:induction false} AsWrittenBridgeSwitch(st: State, cat: Catalog, id: SocketId, payload: Option<Json>)
    requires Valid(st) && id in st.sockets
    requires st.sockets[id].role == Bridge && SessionOf(st, id).1.Some? && id in SessionOf(st, id).1.value.bridges
    requires !Arg(payload).JNull? && JoinCode(Arg(payload)) in st.sessions
    requires JoinCode(Arg(payload)) != SessionOf(st, id).0
    ensures var r := BridgeJoin(st, cat, id, payload);
      var a := SessionOf(st, id).0;
      && a in r.st.sessions && id in r.st.sessions[a].bridges
      && (forall k | 0 <= k < |r.out| :: !r.out[k].event.BridgeDisconnected?)
      && forall x, input, now | x in r.st.sockets && r.st.sockets[x].role == Controller && SessionOf(r.st, x).0 == a ::
           id in Recipients(ControllerInput(r.st, x, input, now))
  {
    var r := BridgeJoin(st, cat, id, payload);
    var a := SessionOf(st, id).0;
    BridgeJoinAdds(st, cat, id, payload);
    forall x, input, now | x in r.st.sockets && r.st.sockets[x].role == Controller && SessionOf(r.st, x).0 == a
      ensures id in Recipients(ControllerInput(r.st, x, input, now))
    {
      InputRecipients(r.st, x, input, now);
    }
  }

  /** As written, a controller that switches from A to B stays in A's room,
      so A's host's config updates still reach it. */
  lemma {:induction false} AsWrittenControllerSwitch(st: State, cat: Catalog, id: SocketId, payload: Option<Json>, h: SocketId, update: Option<Json>)
    requires Valid(st) && id in st.sockets
    requires st.sockets[id].role == Controller && SessionOf(st, id).1.Some? && id in SessionOf(st, id).1.value.controllers
    requires !Arg(payload).JNull? && JoinCode(Arg(payload)) in st.sessions
    requires JoinCode(Arg(payload)) != SessionOf(st, id).0
    requires h in st.sockets && h != id && st.sockets[h].role == Host && SessionOf(st, h).0 == SessionOf(st, id).0
    requires !Arg(update).JNull?
    ensures var r := ControllerJoin(st, cat, id, payload);
      var a := SessionOf(st, id).0;
      && a in r.st.sessions && id in r.st.sessions[a].controllers
      && (forall k | 0 <= k < |r.out| :: !r.out[k].event.ControllerDisconnected?)
      && id in Recipients(UpdateConfig(r.st, cat, h, update).out)
  {
    var r := ControllerJoin(st, cat, id, payload);
    var a := SessionOf(st, id).0;
    ControllerJoinAdds(st, cat, id, payload);
    StoredCodeNormal(st, id);
    assert id in Room(r.st, a);
    UpdateConfigReplaces(r.st, cat, h, update);
    assert id in UpdateConfig(r.st, cat, h, update).out[0].to;
  }
}
