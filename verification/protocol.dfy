/** The direct-connect wire protocol between a phone and the desktop host
    (`desktop/src/shared/protocol.ts`): the constants, the message kinds in
    both directions, and the host's parser for inbound text frames. */
module Protocol {
  import opened Wrappers
  import opened JsonValue

  /** The host's default WebSocket port. */
  const Port: nat := 8765

  /** How many controllers may be paired at once. */
  const MaxControllers: nat := 4

  datatype Layout = Xbox | Simple | Custom

  /** The layout's name on the wire. */
  function LayoutWire(l: Layout): string {
    match l
    case Xbox => "xbox"
    case Simple => "simple"
    case Custom => "custom"
  }

  /** Why the host turns a client away. */
  datatype RejectReason = InvalidCode | ServerFull | AlreadyConnected

  function ReasonWire(r: RejectReason): string {
    match r
    case InvalidCode => "invalid_code"
    case ServerFull => "server_full"
    case AlreadyConnected => "already_connected"
  }

  /** The three reasons have three distinct wire names. */
  lemma {:induction false} ReasonWireInjective(a: RejectReason, b: RejectReason)
    ensures ReasonWire(a) == ReasonWire(b) <==> a == b
  {
  }

  datatype ButtonState = Pressed | Released
  datatype Side = Left | Right
  datatype Direction = Up | Down | LeftDir | RightDir | NoDirection

  function DirectionWire(d: Direction): string {
    match d
    case Up => "up"
    case Down => "down"
    case LeftDir => "left"
    case RightDir => "right"
    case NoDirection => "none"
  }

  /** The messages a client is meant to send (`ClientInboundMessage`). */
  datatype ClientMessage =
    | Pair(code: string)
    | Button(button: string, state: ButtonState)
    | Stick(stick: Side, x: real, y: real)
    | Trigger(trigger: Side, value: real)
    | Dpad(direction: Direction)
    | Ping
    | Pong

  /** The `type` tag of each message kind. */
  function Kind(m: ClientMessage): string {
    match m
    case Pair(_) => "pair"
    case Button(_, _) => "button"
    case Stick(_, _, _) => "stick"
    case Trigger(_, _) => "trigger"
    case Dpad(_) => "dpad"
    case Ping => "ping"
    case Pong => "pong"
  }

  function SideWire(s: Side): string {
    match s
    case Left => "left"
    case Right => "right"
  }

  /** The JSON object a client sends for a message. */
  function Encode(m: ClientMessage): (r: Json)
    ensures r.JObj? && |r.entries| > 0 && r.entries[0] == ("type", JStr(Kind(m)))
  {
    var tag := ("type", JStr(Kind(m)));
    match m
    case Pair(code) => JObj([tag, ("code", JStr(code))])
    case Button(b, s) => JObj([tag, ("button", JStr(b)), ("state", JStr(if s == Pressed then "pressed" else "released"))])
    case Stick(side, x, y) => JObj([tag, ("stick", JStr(SideWire(side))), ("x", JNum(x)), ("y", JNum(y))])
    case Trigger(side, v) => JObj([tag, ("trigger", JStr(SideWire(side))), ("value", JNum(v))])
    case Dpad(d) => JObj([tag, ("direction", JStr(DirectionWire(d)))])
    case Ping => JObj([tag])
    case Pong => JObj([tag])
  }

  /** What `parseClientInboundMessage` hands on: the decoded value, with
      only its `type` checked to be a string. */
  datatype Inbound = Inbound(kind: string, body: Json)

  /** `parseClientInboundMessage`. `raw` is the result of `JSON.parse`,
      `None` when it throws. */
  function Parse(raw: Option<Json>): (r: Option<Inbound>)
    ensures r.Some? ==> raw == Some(r.value.body) && Get(r.value.body, "type") == Some(JStr(r.value.kind))
  {
    if raw.None? || !JsTruthy(raw) then None
    else
      match Get(raw.value, "type")
      case Some(JStr(t)) => Some(Inbound(t, raw.value))
      case _ => None
  }

  /** A frame is accepted exactly when it decodes to an object whose `type`
      is a string — whatever that string is. */
  lemma {:induction false} ParseAccepts(raw: Option<Json>)
    ensures Parse(raw).Some? <==> raw.Some? && raw.value.JObj? && exists t :: Get(raw.value, "type") == Some(JStr(t))
  {
    if raw.Some? && raw.value.JObj? && (exists t :: Get(raw.value, "type") == Some(JStr(t))) {
      assert JsTruthy(raw);
    }
  }

  /** Every message a client can build is parsed back with its own tag and
      body. */
  lemma {:induction false} ParseEncode(m: ClientMessage)
    ensures Parse(Some(Encode(m))) == Some(Inbound(Kind(m), Encode(m)))
  {
  }

  /** The messages the host sends (`HostOutboundMessage`). */
  datatype Outbound =
    | Welcome(controllerId: nat, layout: Layout)
    | Reject(reason: RejectReason)
    | LayoutChange(layout: Layout)
    | PingOut
    | PongOut
}
