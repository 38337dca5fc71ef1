/** The desktop host's direct-connect server (`desktop/src/main/hostServer.ts`):
    each WebSocket client starts unpaired, pairs with the six-digit code and
    is given the lowest free controller slot in 1..4, then streams input that
    the host feeds to that slot's virtual pad. The `ws` transport is replaced
    by explicit effects; the clock is a parameter. */
module HostServer {
  import opened Wrappers
  import opened Text
  import opened JsonValue
  import opened Protocol
  import opened Vigem
  import opened Uri

  /** A socket, by identity. */
  type ClientId = nat

  datatype Client = Client(paired: bool, controllerId: Option<nat>, connectedAt: int, lastSeenAt: int, inputCount: nat)

  datatype Host = Host(clients: map<ClientId, Client>, pairingCode: string, layout: Layout, pads: Bridge)

  /** What the host does to its sockets: send one frame to each client in
      `to`, or close a socket with policy-violation status and a reason. */
  datatype Effect = Send(to: set<ClientId>, msg: Outbound) | Close(id: ClientId, reason: string)

  datatype Step = Step(h: Host, out: seq<Effect>)

  /** Six decimal digits. */
  predicate IsPairingCode(s: string) {
    |s| == 6 && All(s, IsDigit)
  }

  /** Controller slot `k` is held by a paired client. */
  predicate Used(h: Host, k: nat) {
    exists id | id in h.clients :: h.clients[id].paired && h.clients[id].controllerId == Some(k)
  }

  function Paired(h: Host): (r: set<ClientId>)
    ensures forall id :: id in r <==> id in h.clients && h.clients[id].paired
  {
    set id | id in h.clients && h.clients[id].paired
  }

  /** The host's invariant: exactly the paired clients hold a slot, slots lie
      in 1..4 and are held by one client each, only held slots have a pad,
      and the pairing code is six digits. */
  predicate Valid(h: Host) {
    && (forall id | id in h.clients :: h.clients[id].controllerId.Some? <==> h.clients[id].paired)
    && (forall id | id in h.clients && h.clients[id].controllerId.Some? ::
          1 <= h.clients[id].controllerId.value <= MaxControllers)
    && (forall a, b | a in h.clients && b in h.clients && a != b && h.clients[a].controllerId.Some? ::
          h.clients[a].controllerId != h.clients[b].controllerId)
    && (forall s | s in h.pads.slots :: Used(h, s))
    && IsPairingCode(h.pairingCode)
  }

  // ---------------------------------------------------------------------
  // Pairing code and deep link

  function Pow10(k: nat): (r: nat)
    ensures r >= 1
  {
    if k == 0 then 1 else 10 * Pow10(k - 1)
  }

  /** A number below 10^k has at most k digits (and always at least one). */
  lemma {:induction false} NatToStringShort(n: nat, k: nat)
    requires 1 <= k && n < Pow10(k)
    ensures |NatToString(n)| <= k
    decreases k
  {
    if n >= 10 {
      assert k >= 2;
      assert n / 10 < Pow10(k - 1);
      NatToStringShort(n / 10, k - 1);
    }
  }

  /** `generateCode()`, given the draw `n = Math.floor(Math.random() * 1e6)`:
      the decimal numeral of `n`, zero-padded to six characters. */
  function GenerateCode(n: nat): (r: string)
    requires n < 1_000_000
    ensures IsPairingCode(r) && DigitsValue(r) == n
  {
    var s := NatToString(n);
    NatToStringShort(n, 6);
    var r := PadZeros(s, 6);
    var z := r[..6 - |s|];
    assert r == z + s;
    assert All(z, c => c == '0') by {
      forall i | 0 <= i < |z| ensures z[i] == '0' {
        assert z[i] == r[i];
      }
    }
    DigitsValueLeadingZeros(z, s);
    NatToStringRoundTrip(n);
    r
  }

  const LinkPrefix: string := "aircontroller://connect?ip="

  /** The `deepLink` getter: the URI the QR code carries. */
  function DeepLink(ip: string, port: nat, code: string): (r: string)
    ensures |r| > |LinkPrefix| && r[..|LinkPrefix|] == LinkPrefix
  {
    LinkPrefix + EncodeUriComponent(ip) + "&port=" + NatToString(port) + "&code=" + code
  }

  // ---------------------------------------------------------------------
  // Slot allocation

  /** The scan `findOpenSlot` makes from slot `k` upwards. */
  function FindFrom(h: Host, k: nat): (r: Option<nat>)
    requires 1 <= k
    ensures r.Some? ==>
      && k <= r.value <= MaxControllers && !Used(h, r.value)
      && forall j | k <= j < r.value :: Used(h, j)
    ensures r.None? ==> forall j | k <= j <= MaxControllers :: Used(h, j)
    decreases MaxControllers + 1 - k
  {
    if k > MaxControllers then None
    else if !Used(h, k) then Some(k)
    else FindFrom(h, k + 1)
  }

  /** `findOpenSlot()`: the smallest slot in 1..4 no paired client holds,
      or `None` (`null`) when all four are held. */
  function FindOpenSlot(h: Host): (r: Option<nat>)
    ensures r.Some? ==>
      && 1 <= r.value <= MaxControllers && !Used(h, r.value)
      && forall j | 1 <= j < r.value :: Used(h, j)
    ensures r.None? <==> forall j | 1 <= j <= MaxControllers :: Used(h, j)
  {
    FindFrom(h, 1)
  }

  // ---------------------------------------------------------------------
  // Socket events

  /** The host before any connection, with a fresh pairing code. */
  function Initial(code: string, available: bool): (h: Host)
    requires IsPairingCode(code)
    ensures Valid(h) && h.clients == map[] && h.layout == Xbox
  {
    Host(map[], code, Xbox, Bridge(available, map[]))
  }

  /** The `connection` event: a new socket is tracked, unpaired. */
  function Connect(h: Host, id: ClientId, now: int): (r: Host)
    requires id !in h.clients
    ensures r.clients.Keys == h.clients.Keys + {id} && !r.clients[id].paired
    ensures forall c | c in h.clients :: r.clients[c] == h.clients[c]
    ensures r.pads == h.pads && r.layout == h.layout && r.pairingCode == h.pairingCode
  {
    h.(clients := h.clients[id := Client(false, None, now, now, 0)])
  }

  /** `handlePair`: check the code, take the lowest free slot, attach its
      pad and welcome the client. `connectOk` is whether the pad's
      `connect()` succeeds. */
  function HandlePair(h: Host, id: ClientId, m: Inbound, connectOk: bool): (r: Step)
    requires id in h.clients
    ensures r.h.clients.Keys == h.clients.Keys && r.h.layout == h.layout && r.h.pairingCode == h.pairingCode
    ensures forall c | c in h.clients && c != id :: r.h.clients[c] == h.clients[c]
  {
    var c := h.clients[id];
    if c.paired then Step(h, [Send({id}, Reject(AlreadyConnected))])
    else if Get(m.body, "code") != Some(JStr(h.pairingCode)) then
      Step(h, [Send({id}, Reject(InvalidCode)), Close(id, "invalid_code")])
    else
      match FindOpenSlot(h)
      case None => Step(h, [Send({id}, Reject(ServerFull)), Close(id, "server_full")])
      case Some(slot) =>
        var clients := h.clients[id := c.(paired := true, controllerId := Some(slot))];
        var pads := AttachController(h.pads, slot, connectOk).0;
        Step(h.(clients := clients, pads := pads), [Send({id}, Welcome(slot, h.layout))])
  }

  /** `handleInput`: `pong` is ignored, `ping` is answered, anything else is
      counted and fed to the client's pad. The pad step is the corrected
      `Vigem.FixedApplyInput`. */
  function HandleInput(h: Host, id: ClientId, m: Inbound): (r: Step)
    requires id in h.clients
    ensures r.h.clients.Keys == h.clients.Keys && r.h.layout == h.layout && r.h.pairingCode == h.pairingCode
    ensures forall c | c in h.clients ::
      r.h.clients[c].paired == h.clients[c].paired && r.h.clients[c].controllerId == h.clients[c].controllerId
    ensures forall c | c in h.clients && c != id :: r.h.clients[c] == h.clients[c]
    ensures r.h.pads.slots.Keys == h.pads.slots.Keys
  {
    if m.kind == "pong" then Step(h, [])
    else if m.kind == "ping" then Step(h, [Send({id}, PongOut)])
    else
      var c := h.clients[id];
      var h1 := h.(clients := h.clients[id := c.(inputCount := c.inputCount + 1)]);
      if c.controllerId.Some? then Step(h1.(pads := FixedApplyInput(h.pads, c.controllerId.value, m)), [])
      else Step(h1, [])
  }

  /** `onMessage`: `raw` is the frame after `JSON.parse` (`None` when it
      throws). The client's `lastSeenAt` is stamped first, whatever follows. */
  function OnMessage(h: Host, id: ClientId, raw: Option<Json>, now: int, connectOk: bool): (r: Step)
    requires id in h.clients
    ensures r.h.clients.Keys == h.clients.Keys && r.h.clients[id].lastSeenAt == now
  {
    var c := h.clients[id].(lastSeenAt := now);
    var h1 := h.(clients := h.clients[id := c]);
    match Parse(raw)
    case None => Step(h1, [])
    case Some(m) =>
      if !c.paired then
        if m.kind != "pair" then Step(h1, [Send({id}, Reject(InvalidCode)), Close(id, "Expected pair first")])
        else HandlePair(h1, id, m, connectOk)
      else HandleInput(h1, id, m)
  }

  /** The `close` event: a client holding a slot has its pad detached, and
      the client is forgotten. An unknown socket changes nothing. */
  function OnClose(h: Host, id: ClientId): (r: Host)
    ensures r.clients == h.clients - {id}
    ensures r.layout == h.layout && r.pairingCode == h.pairingCode && r.pads.available == h.pads.available
  {
    if id !in h.clients then h
    else
      var c := h.clients[id];
      var pads := if c.controllerId.Some? then DetachController(h.pads, c.controllerId.value).0 else h.pads;
      h.(clients := h.clients - {id}, pads := pads)
  }

  /** `setLayout(layout)`. */
  function SetLayout(h: Host, layout: Layout): (r: Step)
    ensures r.h == h.(layout := layout)
  {
    if h.layout == layout then Step(h, [])
    else Step(h.(layout := layout), [Send(Paired(h), LayoutChange(layout))])
  }

  /** One tick of the ping loop: every paired client is pinged. */
  function PingTick(h: Host): (r: seq<Effect>)
    ensures |r| == 1 && r[0].Send? && r[0].msg == PingOut
    ensures forall id :: id in r[0].to <==> id in h.clients && h.clients[id].paired
  {
    [Send(Paired(h), PingOut)]
  }

  /** In a valid host the ping goes exactly to the clients holding a
      controller slot, so never to more than four clients. */
  lemma {:induction false} PingReachesControllers(h: Host)
    requires Valid(h)
    ensures forall id :: id in PingTick(h)[0].to <==> id in h.clients && h.clients[id].controllerId.Some?
    ensures |PingTick(h)[0].to| <= MaxControllers
  {
    var ids := Paired(h);
    SlotsOfCard(h, ids);
    var all: set<nat> := {1, 2, 3, 4};
    assert SlotsOf(h, ids) <= all;
    SubsetCard(SlotsOf(h, ids), all);
  }

  lemma {:induction false} SubsetCard(a: set<nat>, b: set<nat>)
    requires a <= b
    ensures |a| <= |b|
    decreases |b|
  {
    if a != {} {
      var x :| x in a;
      SubsetCard(a - {x}, b - {x});
    }
  }

  /** The slots a set of paired clients hold. */
  function SlotsOf(h: Host, ids: set<ClientId>): set<nat>
    requires Valid(h) && ids <= Paired(h)
  {
    set id | id in ids :: h.clients[id].controllerId.value
  }

  /** Paired clients hold distinct slots, so there are as many slots as
      clients. */
  lemma {:induction false} SlotsOfCard(h: Host, ids: set<ClientId>)
    requires Valid(h) && ids <= Paired(h)
    ensures |SlotsOf(h, ids)| == |ids|
    decreases |ids|
  {
    if ids != {} {
      var x :| x in ids;
      var rest := ids - {x};
      SlotsOfCard(h, rest);
      assert SlotsOf(h, ids) == SlotsOf(h, rest) + {h.clients[x].controllerId.value};
      assert h.clients[x].controllerId.value !in SlotsOf(h, rest);
    }
  }

  // ---------------------------------------------------------------------
  // The invariant is kept

  lemma {:induction false} ConnectValid(h: Host, id: ClientId, now: int)
    requires Valid(h) && id !in h.clients
    ensures Valid(Connect(h, id, now))
  {
    var r := Connect(h, id, now);
    forall s | s in r.pads.slots ensures Used(r, s) {
      var w :| w in h.clients && h.clients[w].paired && h.clients[w].controllerId == Some(s);
      assert r.clients[w] == h.clients[w];
    }
  }

  /** A host whose client map gains or changes entries only in ways that
      keep every held slot held still has every pad's slot held. */
  lemma {:induction false} UsedKept(h: Host, r: Host, id: ClientId)
    requires id in h.clients && !h.clients[id].paired
    requires r.clients.Keys == h.clients.Keys
    requires forall c | c in h.clients && c != id :: r.clients[c] == h.clients[c]
    requires forall s | s in h.pads.slots :: Used(h, s)
    requires r.pads.slots.Keys <= h.pads.slots.Keys
    ensures forall s | s in r.pads.slots :: Used(r, s)
  {
    forall s | s in r.pads.slots ensures Used(r, s) {
      var w :| w in h.clients && h.clients[w].paired && h.clients[w].controllerId == Some(s);
      assert w != id;
      assert r.clients[w] == h.clients[w];
    }
  }

  lemma {:induction false} HandlePairValid(h: Host, id: ClientId, m: Inbound, connectOk: bool)
    requires Valid(h) && id in h.clients
    ensures Valid(HandlePair(h, id, m, connectOk).h)
  {
    var c := h.clients[id];
    if !c.paired && Get(m.body, "code") == Some(JStr(h.pairingCode)) && FindOpenSlot(h).Some? {
      var slot := FindOpenSlot(h).value;
      var r := HandlePair(h, id, m, connectOk).h;
      assert r.clients[id].paired && r.clients[id].controllerId == Some(slot);
      assert Used(r, slot);
      forall a, b | a in r.clients && b in r.clients && a != b && r.clients[a].controllerId.Some?
        ensures r.clients[a].controllerId != r.clients[b].controllerId
      {
        if a == id {
          assert r.clients[b] == h.clients[b];
          if h.clients[b].controllerId == Some(slot) {
            assert Used(h, slot);
          }
        } else if b == id {
          assert r.clients[a] == h.clients[a];
        }
      }
      forall s | s in r.pads.slots ensures Used(r, s) {
        if s != slot {
          var w :| w in h.clients && h.clients[w].paired && h.clients[w].controllerId == Some(s);
          assert w != id;
          assert r.clients[w] == h.clients[w];
        }
      }
    }
  }

  lemma {:induction false} HandleInputValid(h: Host, id: ClientId, m: Inbound)
    requires Valid(h) && id in h.clients
    ensures Valid(HandleInput(h, id, m).h)
  {
    var r := HandleInput(h, id, m).h;
    forall s | s in r.pads.slots ensures Used(r, s) {
      var w :| w in h.clients && h.clients[w].paired && h.clients[w].controllerId == Some(s);
      assert r.clients[w].paired && r.clients[w].controllerId == Some(s);
    }
  }

  lemma {:induction false} OnMessageValid(h: Host, id: ClientId, raw: Option<Json>, now: int, connectOk: bool)
    requires Valid(h) && id in h.clients
    ensures Valid(OnMessage(h, id, raw, now, connectOk).h)
  {
    var c := h.clients[id].(lastSeenAt := now);
    var h1 := h.(clients := h.clients[id := c]);
    assert Valid(h1) by {
      forall s | s in h1.pads.slots ensures Used(h1, s) {
        var w :| w in h.clients && h.clients[w].paired && h.clients[w].controllerId == Some(s);
        assert h1.clients[w].paired && h1.clients[w].controllerId == Some(s);
      }
    }
    match Parse(raw)
    case None =>
    case Some(m) =>
      if !c.paired {
        if m.kind == "pair" {
          HandlePairValid(h1, id, m, connectOk);
        }
      } else {
        HandleInputValid(h1, id, m);
      }
  }

  lemma {:induction false} OnCloseValid(h: Host, id: ClientId)
    requires Valid(h)
    ensures Valid(OnClose(h, id))
  {
    if id in h.clients {
      var r := OnClose(h, id);
      var c := h.clients[id];
      forall s | s in r.pads.slots ensures Used(r, s) {
        var w :| w in h.clients && h.clients[w].paired && h.clients[w].controllerId == Some(s);
        assert w != id;
        assert r.clients[w] == h.clients[w];
      }
    }
  }

  lemma {:induction false} SetLayoutValid(h: Host, layout: Layout)
    requires Valid(h)
    ensures Valid(SetLayout(h, layout).h)
  {
    var r := SetLayout(h, layout).h;
    forall s | s in r.pads.slots ensures Used(r, s) {
      var w :| w in h.clients && h.clients[w].paired && h.clients[w].controllerId == Some(s);
      assert r.clients[w] == h.clients[w];
    }
  }

  // ---------------------------------------------------------------------
  // The pairing protocol

  /** An unpaired client whose first parsed frame is not `pair` is refused
      with `invalid_code` and closed, and stays unpaired. */
  lemma {:induction false} UnpairedMustPair(h: Host, id: ClientId, raw: Option<Json>, now: int, connectOk: bool)
    requires id in h.clients && !h.clients[id].paired
    requires Parse(raw).Some? && Parse(raw).value.kind != "pair"
    ensures var r := OnMessage(h, id, raw, now, connectOk);
      && r.out == [Send({id}, Reject(InvalidCode)), Close(id, "Expected pair first")]
      && r.h == h.(clients := h.clients[id := h.clients[id].(lastSeenAt := now)])
  {
  }

  /** A `pair` frame with the wrong code is refused with `invalid_code`, the
      socket is closed, and nothing but `lastSeenAt` changes. */
  lemma {:induction false} WrongCodeRejected(h: Host, id: ClientId, raw: Option<Json>, now: int, connectOk: bool)
    requires id in h.clients && !h.clients[id].paired
    requires Parse(raw).Some? && Parse(raw).value.kind == "pair"
    requires Get(raw.value, "code") != Some(JStr(h.pairingCode))
    ensures var r := OnMessage(h, id, raw, now, connectOk);
      && r.out == [Send({id}, Reject(InvalidCode)), Close(id, "invalid_code")]
      && r.h == h.(clients := h.clients[id := h.clients[id].(lastSeenAt := now)])
  {
  }

  /** The right code with all four slots held is refused with `server_full`
      and closed, and the client stays unpaired. */
  lemma {:induction false} FullRejected(h: Host, id: ClientId, raw: Option<Json>, now: int, connectOk: bool)
    requires id in h.clients && !h.clients[id].paired
    requires Parse(raw).Some? && Parse(raw).value.kind == "pair"
    requires Get(raw.value, "code") == Some(JStr(h.pairingCode))
    requires forall k | 1 <= k <= MaxControllers :: Used(h, k)
    ensures var r := OnMessage(h, id, raw, now, connectOk);
      && r.out == [Send({id}, Reject(ServerFull)), Close(id, "server_full")]
      && r.h == h.(clients := h.clients[id := h.clients[id].(lastSeenAt := now)])
  {
    var h1 := h.(clients := h.clients[id := h.clients[id].(lastSeenAt := now)]);
    UsedSame(h, h1, id);
  }

  /** The right code with a slot free pairs the client on the lowest free
      slot, attaches that slot's pad and sends `welcome` with the slot and
      the current layout. */
  lemma {:induction false} PairWelcomes(h: Host, id: ClientId, raw: Option<Json>, now: int, connectOk: bool)
    requires id in h.clients && !h.clients[id].paired
    requires Parse(raw).Some? && Parse(raw).value.kind == "pair"
    requires Get(raw.value, "code") == Some(JStr(h.pairingCode))
    requires !(forall k | 1 <= k <= MaxControllers :: Used(h, k))
    ensures var r := OnMessage(h, id, raw, now, connectOk);
      exists slot: nat ::
        && 1 <= slot <= MaxControllers
        && r.out == [Send({id}, Welcome(slot, h.layout))]
        && r.h.clients[id].paired && r.h.clients[id].controllerId == Some(slot)
        && !Used(h, slot) && (forall j | 1 <= j < slot :: Used(h, j))
        && r.h.pads == AttachController(h.pads, slot, connectOk).0
  {
    var h1 := h.(clients := h.clients[id := h.clients[id].(lastSeenAt := now)]);
    UsedSame(h, h1, id);
    var slot := FindOpenSlot(h1).value;
    assert OnMessage(h, id, raw, now, connectOk).out == [Send({id}, Welcome(slot, h.layout))];
  }

  /** Stamping `lastSeenAt` on an unpaired client changes no slot's holder. */
  lemma {:induction false} UsedSame(h: Host, h1: Host, id: ClientId)
    requires id in h.clients && !h.clients[id].paired
    requires id in h1.clients && !h1.clients[id].paired
    requires h1.clients == h.clients[id := h1.clients[id]]
    ensures forall k: nat :: Used(h1, k) <==> Used(h, k)
    ensures FindOpenSlot(h1) == FindOpenSlot(h)
  {
    forall k: nat ensures Used(h1, k) <==> Used(h, k) {
      if Used(h1, k) {
        var w :| w in h1.clients && h1.clients[w].paired && h1.clients[w].controllerId == Some(k);
        assert w != id && h.clients[w] == h1.clients[w];
      }
      if Used(h, k) {
        var w :| w in h.clients && h.clients[w].paired && h.clients[w].controllerId == Some(k);
        assert w != id && h.clients[w] == h1.clients[w];
      }
    }
  }

  /** `already_connected` is never sent: a paired client's frames go to
      `handleInput`, so `handlePair` only ever sees unpaired clients. */
  lemma {:induction false} NeverAlreadyConnected(h: Host, id: ClientId, raw: Option<Json>, now: int, connectOk: bool)
    requires id in h.clients
    ensures var r := OnMessage(h, id, raw, now, connectOk);
      forall k | 0 <= k < |r.out| :: !(r.out[k].Send? && r.out[k].msg == Reject(AlreadyConnected))
  {
  }

  /** A paired client's later `pair` frame is handled as input: counted,
      answered with nothing, its slot untouched. */
  lemma {:induction false} RepairCounted(h: Host, id: ClientId, raw: Option<Json>, now: int, connectOk: bool)
    requires Valid(h) && id in h.clients && h.clients[id].paired
    requires Parse(raw).Some? && Parse(raw).value.kind == "pair"
    ensures var r := OnMessage(h, id, raw, now, connectOk);
      && r.out == []
      && r.h.clients[id].inputCount == h.clients[id].inputCount + 1
      && r.h.clients[id].controllerId == h.clients[id].controllerId
      && r.h.pads == h.pads
  {
    var m := Parse(raw).value;
    var v := FixedApplyInput(h.pads, h.clients[id].controllerId.value, m);
    assert v == h.pads;
  }

  /** `ping` is answered with `pong` and `pong` is ignored; neither is
      counted or reaches the pad. */
  lemma {:induction false} PingPong(h: Host, id: ClientId, m: Inbound)
    requires id in h.clients && m.kind in {"ping", "pong"}
    ensures var r := HandleInput(h, id, m);
      && r.h == h
      && r.out == (if m.kind == "ping" then [Send({id}, PongOut)] else [])
  {
  }

  /** Any other frame from a paired client is counted once and applied to
      that client's slot only. */
  lemma {:induction false} InputApplied(h: Host, id: ClientId, m: Inbound)
    requires id in h.clients && h.clients[id].controllerId.Some? && m.kind !in {"ping", "pong"}
    ensures var r := HandleInput(h, id, m);
      && r.out == []
      && r.h.clients[id].inputCount == h.clients[id].inputCount + 1
      && r.h.pads == FixedApplyInput(h.pads, h.clients[id].controllerId.value, m)
      && forall s | s in h.pads.slots && s != h.clients[id].controllerId.value :: r.h.pads.slots[s] == h.pads.slots[s]
  {
  }

  /** Closing a paired client releases its slot: no one holds it, it has no
      pad, and `findOpenSlot` now returns it or a lower slot. */
  lemma {:induction false} CloseFreesSlot(h: Host, id: ClientId)
    requires Valid(h) && id in h.clients && h.clients[id].paired
    ensures var k := h.clients[id].controllerId.value;
      var r := OnClose(h, id);
      && !Used(r, k) && k !in r.pads.slots
      && FindOpenSlot(r).Some? && FindOpenSlot(r).value <= k
  {
    var k := h.clients[id].controllerId.value;
    var r := OnClose(h, id);
    assert !Used(r, k);
  }

  /** Setting the layout it already has does nothing; a new layout is sent
      as `layout_change` to exactly the paired clients. */
  lemma {:induction false} SetLayoutNotifies(h: Host, layout: Layout)
    ensures var r := SetLayout(h, layout);
      && (layout == h.layout ==> r.out == [])
      && (layout != h.layout ==>
            |r.out| == 1 && r.out[0].Send? && r.out[0].msg == LayoutChange(layout)
            && forall id :: id in r.out[0].to <==> id in h.clients && h.clients[id].paired)
  {
  }
}
