/** The desktop host's virtual-gamepad bridge (`desktop/src/main/vigemBridge.ts`):
    one virtual Xbox 360 pad per controller slot, created on attach, fed by
    input messages, reset and removed on detach. The ViGEm driver itself is
    not modelled; a `Pad` records what the bridge wrote to a device and how
    many times it pushed an update. */
module Vigem {
  import opened Wrappers
  import opened JsonValue
  import opened Protocol

  datatype ButtonName =
    Start | Back | LeftThumb | RightThumb | LeftShoulder | RightShoulder | Guide | A | B | X | Y

  datatype Axis = LeftX | LeftY | RightX | RightY | LeftTrigger | RightTrigger | DpadHorz | DpadVert

  /** A virtual pad as the bridge drives it: connected or not, the value last
      written to each button and axis, and the number of `update()` calls. */
  datatype Pad = Pad(connected: bool, buttons: map<ButtonName, bool>, axes: map<Axis, Num>, updates: nat)

  const NeutralButtons: map<ButtonName, bool> := map[
    Start := false, Back := false, LeftThumb := false, RightThumb := false, LeftShoulder := false,
    RightShoulder := false, Guide := false, A := false, B := false, X := false, Y := false]

  const NeutralAxes: map<Axis, Num> := map[
    LeftX := Finite(0.0), LeftY := Finite(0.0), RightX := Finite(0.0), RightY := Finite(0.0),
    LeftTrigger := Finite(0.0), RightTrigger := Finite(0.0), DpadHorz := Finite(0.0), DpadVert := Finite(0.0)]

  /** Every button released and every axis at rest. */
  predicate Neutral(p: Pad) {
    p.buttons == NeutralButtons && p.axes == NeutralAxes
  }

  /** `resetInputs()`. */
  function ResetInputs(p: Pad): (r: Pad)
    ensures Neutral(r) && r.connected == p.connected && r.updates == p.updates
  {
    p.(buttons := NeutralButtons, axes := NeutralAxes)
  }

  /** `update()`: the current values are pushed to the driver. */
  function Update(p: Pad): (r: Pad)
    ensures r.updates == p.updates + 1 && r.(updates := p.updates) == p
  {
    p.(updates := p.updates + 1)
  }

  /** The bridge: whether a ViGEm client could be created, and the pad of
      each attached slot. */
  datatype Bridge = Bridge(available: bool, slots: map<nat, Pad>)

  /** `attachController(slot)`; `connectOk` is whether the new device's
      `connect()` succeeds. The result's second half is `ok`. */
  function AttachController(v: Bridge, slot: nat, connectOk: bool): (r: (Bridge, bool))
    ensures !v.available ==> r == (v, false)
    ensures v.available && slot in v.slots ==> r == (v, true)
    ensures r.1 <==> v.available && (slot in v.slots || connectOk)
    ensures r.0.available == v.available
    ensures r.0.slots.Keys == if r.1 then v.slots.Keys + {slot} else v.slots.Keys
    ensures forall s | s in v.slots :: r.0.slots[s] == v.slots[s]
  {
    if !v.available then (v, false)
    else if slot in v.slots then (v, true)
    else if !connectOk then (v, false)
    else
      var pad := Update(ResetInputs(Pad(true, map[], map[], 0)));
      (v.(slots := v.slots[slot := pad]), true)
  }

  /** A freshly attached pad is connected, neutral, and has been pushed to
      the driver exactly once. */
  lemma {:induction false} AttachFresh(v: Bridge, slot: nat)
    requires v.available && slot !in v.slots
    ensures var r := AttachController(v, slot, true);
      var p := r.0.slots[slot];
      p.connected && Neutral(p) && p.updates == 1
  {
  }

  /** `detachController(slot)`. The second half of the result is the device
      as it was left: reset, updated once more and disconnected. The slot is
      removed whatever the driver calls report. */
  function DetachController(v: Bridge, slot: nat): (r: (Bridge, Option<Pad>))
    ensures r.0 == v.(slots := v.slots - {slot})
    ensures r.1.Some? <==> slot in v.slots
    ensures r.1.Some? ==>
      && Neutral(r.1.value) && !r.1.value.connected
      && r.1.value.updates == v.slots[slot].updates + 1
  {
    if slot !in v.slots then (v, None)
    else
      var p := Update(ResetInputs(v.slots[slot])).(connected := false);
      (v.(slots := v.slots - {slot}), Some(p))
  }

  /** `shutdown()`: every slot in `order` (the slot map's keys, each once)
      is detached in turn; the second half collects the released devices. */
  function Shutdown(v: Bridge, order: seq<nat>): (r: (Bridge, map<nat, Pad>))
    requires forall k | 0 <= k < |order| :: order[k] in v.slots
    requires forall i, j | 0 <= i < j < |order| :: order[i] != order[j]
    ensures r.0.available == v.available
    ensures forall s :: s in r.0.slots <==> s in v.slots && s !in order
    ensures forall s | s in r.0.slots :: r.0.slots[s] == v.slots[s]
    ensures forall s :: s in r.1 <==> s in order
    ensures forall s | s in r.1 :: Neutral(r.1[s]) && !r.1[s].connected && r.1[s].updates == v.slots[s].updates + 1
    decreases |order|
  {
    if |order| == 0 then (v, map[])
    else
      var (v1, p) := DetachController(v, order[0]);
      var tail := order[1..];
      assert forall k | 0 <= k < |tail| :: tail[k] == order[k + 1];
      assert forall s :: s in order <==> s == order[0] || s in tail;
      assert order[0] !in tail;
      var rest := Shutdown(v1, tail);
      (rest.0, rest.1[order[0] := p.value])
  }

  /** Detaching every attached slot leaves the slot map empty. */
  lemma {:induction false} ShutdownEmpties(v: Bridge, order: seq<nat>)
    requires forall k | 0 <= k < |order| :: order[k] in v.slots
    requires forall i, j | 0 <= i < j < |order| :: order[i] != order[j]
    requires forall s | s in v.slots :: s in order
    ensures Shutdown(v, order).0.slots == map[]
    ensures Shutdown(v, order).1.Keys == v.slots.Keys
  {
  }

  // ---------------------------------------------------------------------
  // Input

  const ButtonMapping: map<string, ButtonName> := map[
    "A" := A, "B" := B, "X" := X, "Y" := Y, "LB" := LeftShoulder, "RB" := RightShoulder,
    "START" := Start, "SELECT" := Back, "GUIDE" := Guide, "LS" := LeftThumb, "RS" := RightThumb]

  const DpadMapping: map<string, (int, int)> := map[
    "up" := (0, 1), "down" := (0, -1), "left" := (-1, 0), "right" := (1, 0), "none" := (0, 0)]

  /** The names every plain JavaScript object inherits from `Object.prototype`. */
  const PrototypeNames: set<string> := {
    "constructor", "hasOwnProperty", "isPrototypeOf", "propertyIsEnumerable", "toLocaleString",
    "toString", "valueOf", "__proto__", "__defineGetter__", "__defineSetter__", "__lookupGetter__",
    "__lookupSetter__"}

  /** What `table[key]` finds on an object literal. */
  datatype Found<T> = Own(value: T) | Inherited | Absent

  function Property<T>(table: map<string, T>, key: string): (r: Found<T>)
    ensures r.Own? <==> key in table
    ensures r.Inherited? <==> key !in table && key in PrototypeNames
  {
    if key in table then Own(table[key]) else if key in PrototypeNames then Inherited else Absent
  }

  /** `table[message[key]]`: the field is turned into a property key the
      way JavaScript does (`String(value)`, `"undefined"` when missing). */
  function Field<T>(table: map<string, T>, body: Json, key: string): Found<T> {
    Property(table, JsKey(Get(body, key)))
  }

  /** `clamp(message[key], lo, hi)`. */
  function ClampField(body: Json, key: string, lo: real, hi: real): (r: Num)
    requires lo <= hi
    ensures r.Finite? ==> lo <= r.r <= hi
  {
    JsClamp(JsToNumber(Get(body, key)), lo, hi)
  }

  /** `applyStick`: `stick: "left"` writes the left axes, anything else the
      right ones. */
  function ApplyStick(p: Pad, body: Json): (r: Pad)
    ensures r.connected == p.connected && r.buttons == p.buttons && r.updates == p.updates
    ensures var (ax, ay) := if Get(body, "stick") == Some(JStr("left")) then (LeftX, LeftY) else (RightX, RightY);
      && r.axes == p.axes[ax := ClampField(body, "x", -1.0, 1.0)][ay := ClampField(body, "y", -1.0, 1.0)]
  {
    if Get(body, "stick") == Some(JStr("left"))
    then p.(axes := p.axes[LeftX := ClampField(body, "x", -1.0, 1.0)][LeftY := ClampField(body, "y", -1.0, 1.0)])
    else p.(axes := p.axes[RightX := ClampField(body, "x", -1.0, 1.0)][RightY := ClampField(body, "y", -1.0, 1.0)])
  }

  /** `applyTrigger`: `trigger: "left"` writes the left trigger, anything
      else the right one. */
  function ApplyTrigger(p: Pad, body: Json): (r: Pad)
    ensures r.connected == p.connected && r.buttons == p.buttons && r.updates == p.updates
    ensures r.axes == p.axes[if Get(body, "trigger") == Some(JStr("left")) then LeftTrigger else RightTrigger := ClampField(body, "value", 0.0, 1.0)]
  {
    var axis := if Get(body, "trigger") == Some(JStr("left")) then LeftTrigger else RightTrigger;
    p.(axes := p.axes[axis := ClampField(body, "value", 0.0, 1.0)])
  }

  /** A stick message writes values in [-1, 1] (or NaN for a non-number) to
      the two axes of one stick and leaves every other control alone. */
  lemma {:induction false} StickTouchesOneSide(p: Pad, body: Json)
    ensures var r := ApplyStick(p, body);
      && (forall a | a in r.axes && a != LeftX && a != LeftY && a != RightX && a != RightY :: a in p.axes && r.axes[a] == p.axes[a])
      && (Get(body, "stick") == Some(JStr("left")) ==>
            && (forall a | a in p.axes && (a == RightX || a == RightY) :: r.axes[a] == p.axes[a])
            && (r.axes[LeftX].Finite? ==> -1.0 <= r.axes[LeftX].r <= 1.0))
      && (Get(body, "stick") != Some(JStr("left")) ==>
            && (forall a | a in p.axes && (a == LeftX || a == LeftY) :: r.axes[a] == p.axes[a])
            && (r.axes[RightX].Finite? ==> -1.0 <= r.axes[RightX].r <= 1.0))
  {
  }

  /** As written: `BUTTON_MAPPING[message.button]` also finds the names every
      object inherits; such a value is truthy but names no button, so
      `controller.button[mapped].setValue` throws a TypeError (`None`). */
  function ApplyButton(p: Pad, body: Json): (r: Option<Pad>)
    ensures r.None? <==> Field(ButtonMapping, body, "button").Inherited?
  {
    match Field(ButtonMapping, body, "button")
    case Own(b) => Some(p.(buttons := p.buttons[b := Get(body, "state") == Some(JStr("pressed"))]))
    case Inherited => None
    case Absent => Some(p)
  }

  /** As written: an inherited name as dpad direction is not nullish, so the
      `?? { h: 0, v: 0 }` fallback is skipped and both dpad axes receive
      `undefined` (a NaN here). */
  function DpadAxes(body: Json): (r: (Num, Num))
  {
    match Field(DpadMapping, body, "direction")
    case Own(hv) => (Finite(hv.0 as real), Finite(hv.1 as real))
    case Inherited => (NaN, NaN)
    case Absent => (Finite(0.0), Finite(0.0))
  }

  /** `applyInput(slot, message)` as written: `None` when it throws. */
  function ApplyInput(v: Bridge, slot: nat, m: Inbound): (r: Option<Bridge>)
    ensures r.None? <==> slot in v.slots && m.kind == "button" && Field(ButtonMapping, m.body, "button").Inherited?
  {
    if slot !in v.slots then Some(v)
    else
      var p := v.slots[slot];
      if m.kind == "button" then
        match ApplyButton(p, m.body)
        case None => None
        case Some(p1) => Some(v.(slots := v.slots[slot := Update(p1)]))
      else if m.kind == "stick" then Some(v.(slots := v.slots[slot := Update(ApplyStick(p, m.body))]))
      else if m.kind == "trigger" then Some(v.(slots := v.slots[slot := Update(ApplyTrigger(p, m.body))]))
      else if m.kind == "dpad" then
        var (h, vv) := DpadAxes(m.body);
        Some(v.(slots := v.slots[slot := Update(p.(axes := p.axes[DpadHorz := h][DpadVert := vv]))]))
      else Some(v)
  }

  /** A paired client that sends `{"type": "button", "button": "toString"}`
      (or any other inherited name) makes `applyInput` throw. */
  lemma {:induction false} AsWrittenInheritedButtonThrows(v: Bridge, slot: nat, m: Inbound, name: string)
    requires slot in v.slots && m.kind == "button"
    requires Get(m.body, "button") == Some(JStr(name)) && name in PrototypeNames
    ensures ApplyInput(v, slot, m) == None
  {
    assert name !in ButtonMapping;
  }

  /** The intended lookups: own properties only, so an unknown button name
      is ignored and an unknown direction centres the dpad. */
  function FixedButton(body: Json): Option<ButtonName> {
    var name := JsKey(Get(body, "button"));
    if name in ButtonMapping then Some(ButtonMapping[name]) else None
  }

  function FixedDpad(body: Json): (r: (int, int))
    ensures -1 <= r.0 <= 1 && -1 <= r.1 <= 1
  {
    var name := JsKey(Get(body, "direction"));
    if name in DpadMapping then DpadMapping[name] else (0, 0)
  }

  /** `applyInput(slot, message)` with own-property lookups: never throws.
      Button, stick, trigger and dpad messages change the slot's pad and
      push exactly one update; anything else, or an unattached slot, changes
      nothing. */
  function FixedApplyInput(v: Bridge, slot: nat, m: Inbound): (r: Bridge)
    ensures r.available == v.available && r.slots.Keys == v.slots.Keys
    ensures forall s | s in v.slots && s != slot :: r.slots[s] == v.slots[s]
    ensures slot !in v.slots || m.kind !in {"button", "stick", "trigger", "dpad"} ==> r == v
    ensures slot in v.slots && m.kind in {"button", "stick", "trigger", "dpad"} ==>
      r.slots[slot].updates == v.slots[slot].updates + 1 && r.slots[slot].connected == v.slots[slot].connected
  {
    if slot !in v.slots then v
    else
      var p := v.slots[slot];
      if m.kind == "button" then
        var p1 := match FixedButton(m.body)
          case Some(b) => p.(buttons := p.buttons[b := Get(m.body, "state") == Some(JStr("pressed"))])
          case None => p;
        v.(slots := v.slots[slot := Update(p1)])
      else if m.kind == "stick" then v.(slots := v.slots[slot := Update(ApplyStick(p, m.body))])
      else if m.kind == "trigger" then v.(slots := v.slots[slot := Update(ApplyTrigger(p, m.body))])
      else if m.kind == "dpad" then
        var (h, vv) := FixedDpad(m.body);
        v.(slots := v.slots[slot := Update(p.(axes := p.axes[DpadHorz := Finite(h as real)][DpadVert := Finite(vv as real)]))])
      else v
  }

  /** Wherever the code as written does not trip over an inherited name, the
      corrected lookup behaves the same. */
  lemma {:induction false} FixedAgrees(v: Bridge, slot: nat, m: Inbound)
    requires !Field(ButtonMapping, m.body, "button").Inherited? && !Field(DpadMapping, m.body, "direction").Inherited?
    ensures ApplyInput(v, slot, m) == Some(FixedApplyInput(v, slot, m))
  {
  }

  /** A button message sets exactly the mapped button to whether its state
      is `"pressed"`; a name without a mapping changes no button. The name
      is the field's JavaScript string, so `["A"]` presses A. */
  lemma {:induction false} ButtonSetsMapped(v: Bridge, slot: nat, m: Inbound)
    requires slot in v.slots && m.kind == "button"
    ensures var p := FixedApplyInput(v, slot, m).slots[slot];
      && p.axes == v.slots[slot].axes
      && var name := JsKey(Get(m.body, "button"));
      && (name in ButtonMapping ==>
            p.buttons == v.slots[slot].buttons[ButtonMapping[name] := Get(m.body, "state") == Some(JStr("pressed"))])
      && (name !in ButtonMapping ==> p.buttons == v.slots[slot].buttons)
  {
  }

  /** A dpad message writes the mapped (h, v) pair, and (0, 0) for `none`
      or any unknown direction. */
  lemma {:induction false} DpadWrites(v: Bridge, slot: nat, m: Inbound, d: Direction)
    requires slot in v.slots && m.kind == "dpad"
    ensures var p := FixedApplyInput(v, slot, m).slots[slot];
      && p.buttons == v.slots[slot].buttons
      && (JsKey(Get(m.body, "direction")) == DirectionWire(d) ==>
            p.axes[DpadHorz] == Finite(match d case LeftDir => -1.0 case RightDir => 1.0 case _ => 0.0)
            && p.axes[DpadVert] == Finite(match d case Up => 1.0 case Down => -1.0 case _ => 0.0))
      && (JsKey(Get(m.body, "direction")) !in DpadMapping ==>
            p.axes[DpadHorz] == Finite(0.0) && p.axes[DpadVert] == Finite(0.0))
  {
  }

  /** Triggers land in [0, 1] (or NaN for a non-number). */
  lemma {:induction false} TriggerClamped(v: Bridge, slot: nat, m: Inbound)
    requires slot in v.slots && m.kind == "trigger"
    ensures var p := FixedApplyInput(v, slot, m).slots[slot];
      && p.buttons == v.slots[slot].buttons
      && (forall a | a in p.axes && a != LeftTrigger && a != RightTrigger :: a in v.slots[slot].axes && p.axes[a] == v.slots[slot].axes[a])
      && forall a | a in p.axes && (a == LeftTrigger || a == RightTrigger) && !(a in v.slots[slot].axes && p.axes[a] == v.slots[slot].axes[a]) ::
           p.axes[a].Finite? ==> 0.0 <= p.axes[a].r <= 1.0
  {
  }
}
