/** The three pads the Python bridge drives (`XboxPad`, `DualShockPad`,
    `DryRunPad` in `desktop-app/src/bridge/virtual-gamepad-bridge.py`).

    Each keeps the set of digital actions it holds pressed; `apply`
    releases what is no longer wanted, presses what is newly wanted, and
    hands the analogue values to the device. The vgamepad device is a
    record of the report it would send and of how many `update()` calls
    it has had; button codes are named by the action they are mapped
    from, which loses nothing as each map is one-to-one. */
module Pads {
  import opened VirtualBridge

  datatype PadKind = Xbox360 | DualShock4 | DryRun

  /** The eight DualShock 4 d-pad directions and the centred position. */
  datatype Ds4Direction =
    | North | NorthEast | East | SouthEast | South | SouthWest | West | NorthWest | Centered

  /** The report a vgamepad device holds. The Xbox device takes its y axes
      inverted; the DualShock device alone has a d-pad direction. */
  datatype Report = Report(
    buttons: set<string>,
    lt: real, rt: real,
    leftX: real, leftY: real, rightX: real, rightY: real,
    dpad: Ds4Direction)

  const NeutralReport: Report := Report({}, 0.0, 0.0, 0.0, 0.0, 0.0, 0.0, Centered)

  /** A device: its report and the number of `update()` calls made on it. */
  datatype Device = Device(report: Report, updates: nat)

  /** A pad: its kind, the actions it holds pressed, its device (unused by
      the dry-run pad), and the last trigger values the dry-run pad logged. */
  datatype Pad = Pad(kind: PadKind, pressed: set<string>, device: Device, lastLt: real, lastRt: real)

  function NewPad(kind: PadKind): (p: Pad)
    ensures p.pressed == {} && p.device.updates == 0
  {
    Pad(kind, {}, Device(NeutralReport, 0), 0.0, 0.0)
  }

  /** The actions `XboxPad._button_map` knows. */
  const XboxButtons: set<string> :=
    {"south", "east", "west", "north", "lb", "rb", "back", "start", "ls", "rs",
     DpadUp, DpadDown, DpadLeft, DpadRight}

  /** The actions `DualShockPad._button_map` knows: no d-pad, which goes
      through `directional_pad` instead. */
  const Ds4Buttons: set<string> :=
    {"south", "east", "west", "north", "lb", "rb", "back", "start", "ls", "rs"}

  /** The analogue actions the dry-run pad leaves out of its digital set. */
  const TriggerActions: set<string> := {"lt", "rt"}

  /** The digital actions a pad of this kind holds for an action set:
      `digital_next` (or `digital_actions` for the dry-run pad). */
  function Digital(kind: PadKind, actions: set<string>): (r: set<string>)
    ensures r <= actions
  {
    match kind
    case Xbox360 => actions * XboxButtons
    case DualShock4 => actions * Ds4Buttons
    case DryRun => actions - TriggerActions
  }

  /** The buttons one `apply` releases and presses. */
  datatype Sync = Sync(released: set<string>, pressed: set<string>)

  /** `_resolve_dpad_direction`: diagonals first, then single directions. */
  function Ds4Dpad(actions: set<string>): Ds4Direction {
    var up := DpadUp in actions;
    var down := DpadDown in actions;
    var left := DpadLeft in actions;
    var right := DpadRight in actions;
    if up && right then NorthEast
    else if up && left then NorthWest
    else if down && right then SouthEast
    else if down && left then SouthWest
    else if up then North
    else if down then South
    else if left then West
    else if right then East
    else Centered
  }

  /** The (horizontal, vertical) offset of a direction, up and right positive. */
  function DpadVector(d: Ds4Direction): (int, int) {
    match d
    case North => (0, 1)
    case NorthEast => (1, 1)
    case East => (1, 0)
    case SouthEast => (1, -1)
    case South => (0, -1)
    case SouthWest => (-1, -1)
    case West => (-1, 0)
    case NorthWest => (-1, 1)
    case Centered => (0, 0)
  }

  function Bit(b: bool): int { if b then 1 else 0 }

  /** On a resolved action set (no opposite directions together) the
      direction sent is the sum of the directions held. */
  lemma {:induction false} Ds4DpadVector(actions: set<string>)
    requires !(DpadUp in actions && DpadDown in actions) && !(DpadLeft in actions && DpadRight in actions)
    ensures DpadVector(Ds4Dpad(actions)) ==
      (Bit(DpadRight in actions) - Bit(DpadLeft in actions), Bit(DpadUp in actions) - Bit(DpadDown in actions))
  {
  }

  /** The report after one `apply` of a frame on a device pad: buttons
      released and pressed, triggers and sticks set (y inverted on the Xbox
      pad), and on the DualShock pad the resolved d-pad direction. */
  function AppliedReport(kind: PadKind, report: Report, s: Sync, f: Frame): Report {
    var buttons := (report.buttons - s.released) + s.pressed;
    match kind
    case Xbox360 => Report(buttons, f.lt, f.rt, f.leftX, -f.leftY, f.rightX, -f.rightY, report.dpad)
    case _ => Report(buttons, f.lt, f.rt, f.leftX, f.leftY, f.rightX, f.rightY, Ds4Dpad(f.actions))
  }

  /** `apply(*frame)`: release `pressed \ next`, press `next \ pressed`,
      then hold `next`; a device pad updates its report once, the dry-run
      pad records the trigger values it logs. */
  function Apply(p: Pad, f: Frame): (r: (Pad, Sync))
    ensures r.0.kind == p.kind
    ensures r.0.pressed == Digital(p.kind, f.actions)
    ensures r.1.released == p.pressed - r.0.pressed && r.1.pressed == r.0.pressed - p.pressed
  {
    var next := Digital(p.kind, f.actions);
    var s := Sync(p.pressed - next, next - p.pressed);
    if p.kind == DryRun then (p.(pressed := next, lastLt := f.lt, lastRt := f.rt), s)
    else (p.(pressed := next, device := Device(AppliedReport(p.kind, p.device.report, s, f), p.device.updates + 1)), s)
  }

  /** `reset()`: nothing held; a device pad sends the neutral report once
      more, the dry-run pad forgets its trigger values. */
  function Reset(p: Pad): (r: Pad)
    ensures r.kind == p.kind && r.pressed == {}
  {
    if p.kind == DryRun then p.(pressed := {}, lastLt := 0.0, lastRt := 0.0)
    else p.(pressed := {}, device := Device(NeutralReport, p.device.updates + 1))
  }

  /** The buttons a pad may hold. */
  predicate CanHold(kind: PadKind, a: string) {
    match kind
    case Xbox360 => a in XboxButtons
    case DualShock4 => a in Ds4Buttons
    case DryRun => a !in TriggerActions
  }

  /** A pad's device holds exactly the buttons the pad believes pressed, and
      those are buttons it can hold. */
  ghost predicate InSync(p: Pad) {
    && (p.kind != DryRun ==> p.device.report.buttons == p.pressed)
    && (forall a | a in p.pressed :: CanHold(p.kind, a))
  }

  lemma {:induction false} NewPadInSync(kind: PadKind)
    ensures InSync(NewPad(kind))
  {
  }

  /** After `apply` the device holds exactly the wanted buttons, and it has
      had one more update. */
  lemma {:induction false} ApplyInSync(p: Pad, f: Frame)
    requires InSync(p)
    ensures var q := Apply(p, f).0;
      && InSync(q)
      && (p.kind != DryRun ==> q.device.report.buttons == Digital(p.kind, f.actions) && q.device.updates == p.device.updates + 1)
  {
    var next := Digital(p.kind, f.actions);
    if p.kind != DryRun {
      var s := Sync(p.pressed - next, next - p.pressed);
      assert (p.device.report.buttons - s.released) + s.pressed == next;
    }
  }

  /** After `reset` nothing is held and a device pad reports neutral. */
  lemma {:induction false} ResetInSync(p: Pad)
    requires InSync(p)
    ensures InSync(Reset(p))
    ensures p.kind != DryRun ==> Reset(p).device == Device(NeutralReport, p.device.updates + 1)
  {
  }

  /** Released and pressed never overlap, and a second `apply` of the same
      frame releases and presses nothing. */
  lemma {:induction false} ApplyStable(p: Pad, f: Frame)
    ensures var (q, s) := Apply(p, f);
      && s.released * s.pressed == {}
      && Apply(q, f).1 == Sync({}, {})
  {
  }

  /** The DualShock pad's d-pad follows the frame's directions; the Xbox pad
      holds the d-pad directions as buttons instead. */
  lemma {:induction false} ApplyDpad(p: Pad, f: Frame)
    requires InSync(p)
    requires !(DpadUp in f.actions && DpadDown in f.actions) && !(DpadLeft in f.actions && DpadRight in f.actions)
    ensures var q := Apply(p, f).0;
      && (p.kind == DualShock4 ==>
            DpadVector(q.device.report.dpad) == (Bit(DpadRight in f.actions) - Bit(DpadLeft in f.actions), Bit(DpadUp in f.actions) - Bit(DpadDown in f.actions)))
      && (p.kind == Xbox360 ==> (DpadUp in q.device.report.buttons <==> DpadUp in f.actions))
  {
    Ds4DpadVector(f.actions);
    ApplyInSync(p, f);
  }
}
