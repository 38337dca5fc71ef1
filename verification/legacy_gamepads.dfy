/** The gamepad registry of the legacy Python server
    (`server/gamepad_manager.py`): one virtual Xbox 360 controller per
    connected client, looked up by a player index.

    A vgamepad device is the report it would send and the number of
    `update()` calls it has had. Stick and trigger values are reals. */
module LegacyGamepads {
  import opened Wrappers
  import opened Text
  import JsonValue

  // ---------------------------------------------------------------------
  // Buttons

  /** The `XUSB_BUTTON` flags `BUTTON_MAP` uses. */
  datatype XusbButton =
    | A | B | X | Y | LeftShoulder | RightShoulder | Start | Back | Guide
    | LeftThumb | RightThumb | DpadUp | DpadDown | DpadLeft | DpadRight

  /** `BUTTON_MAP`: the lower-case names a client may send. */
  const ButtonMap: map<string, XusbButton> := map[
    "a" := A, "b" := B, "x" := X, "y" := Y,
    "lb" := LeftShoulder, "rb" := RightShoulder,
    "start" := Start, "select" := Back, "home" := Guide,
    "ls" := LeftThumb, "rs" := RightThumb,
    "dpad_up" := DpadUp, "dpad_down" := DpadDown,
    "dpad_left" := DpadLeft, "dpad_right" := DpadRight]

  /** `BUTTON_MAP.get(button_name.lower())`; every flag is non-zero, so a
      found button always passes the `if btn` guard. */
  function LookupButton(name: string): (r: Option<XusbButton>)
    ensures r.Some? <==> Lower(name) in ButtonMap
    ensures r.Some? ==> r.value == ButtonMap[Lower(name)]
  {
    if Lower(name) in ButtonMap then Some(ButtonMap[Lower(name)]) else None
  }

  /** The lookup ignores case: a name and its upper-case spelling find the
      same button. */
  lemma {:induction false} LookupIgnoresCase(name: string)
    ensures LookupButton(Upper(name)) == LookupButton(name)
  {
    assert Lower(Upper(name)) == Lower(name) by {
      forall i | 0 <= i < |name|
        ensures Lower(Upper(name))[i] == Lower(name)[i]
      {
        assert Upper(name)[i] == UpperChar(name[i]);
      }
    }
  }

  // ---------------------------------------------------------------------
  // One virtual gamepad

  /** The report a VX360 device holds: buttons down, sticks as (x, y),
      triggers. */
  datatype Report = Report(
    buttons: set<XusbButton>,
    left: (real, real), right: (real, real),
    leftTrigger: real, rightTrigger: real)

  /** `gamepad.reset()`: nothing pressed, sticks centred, triggers released. */
  const NeutralReport: Report := Report({}, (0.0, 0.0), (0.0, 0.0), 0.0, 0.0)

  /** `VirtualGamepad`: its player index, whether it is still open, and its
      device. */
  datatype Gamepad = Gamepad(index: nat, active: bool, report: Report, updates: nat)

  function NewGamepad(index: nat): (g: Gamepad)
    ensures g.index == index && g.active && g.report == NeutralReport && g.updates == 0
  {
    Gamepad(index, true, NeutralReport, 0)
  }

  /** `press_button`: a known name is pressed and sent; an unknown one does
      nothing at all. */
  function PressButton(g: Gamepad, name: string): (r: Gamepad)
    ensures LookupButton(name).None? ==> r == g
    ensures LookupButton(name).Some? ==>
      && r.report == g.report.(buttons := g.report.buttons + {LookupButton(name).value})
      && r.updates == g.updates + 1
    ensures r.index == g.index && r.active == g.active
  {
    match LookupButton(name)
    case None => g
    case Some(b) => g.(report := g.report.(buttons := g.report.buttons + {b}), updates := g.updates + 1)
  }

  /** `release_button`: a known name is released and sent; an unknown one
      does nothing at all. */
  function ReleaseButton(g: Gamepad, name: string): (r: Gamepad)
    ensures LookupButton(name).None? ==> r == g
    ensures LookupButton(name).Some? ==>
      && r.report == g.report.(buttons := g.report.buttons - {LookupButton(name).value})
      && r.updates == g.updates + 1
    ensures r.index == g.index && r.active == g.active
  {
    match LookupButton(name)
    case None => g
    case Some(b) => g.(report := g.report.(buttons := g.report.buttons - {b}), updates := g.updates + 1)
  }

  predicate InStick(p: (real, real)) { -1.0 <= p.0 <= 1.0 && -1.0 <= p.1 <= 1.0 }

  /** A report every value of which lies in the device's range. */
  predicate InRange(r: Report) {
    InStick(r.left) && InStick(r.right) && 0.0 <= r.leftTrigger <= 1.0 && 0.0 <= r.rightTrigger <= 1.0
  }

  /** `set_left_joystick` / `set_right_joystick`: each axis clamped to
      [-1, 1], then sent. */
  function SetJoystick(g: Gamepad, left: bool, x: real, y: real): (r: Gamepad)
    ensures InStick(if left then r.report.left else r.report.right)
    ensures InStick((x, y)) ==> (if left then r.report.left else r.report.right) == (x, y)
    ensures left ==> r.report == g.report.(left := r.report.left)
    ensures !left ==> r.report == g.report.(right := r.report.right)
    ensures r.updates == g.updates + 1 && r.index == g.index && r.active == g.active
  {
    var p := (JsonValue.PyClamp(x, -1.0, 1.0), JsonValue.PyClamp(y, -1.0, 1.0));
    g.(report := if left then g.report.(left := p) else g.report.(right := p), updates := g.updates + 1)
  }

  /** `set_left_trigger` / `set_right_trigger`: clamped to [0, 1], then sent. */
  function SetTrigger(g: Gamepad, left: bool, value: real): (r: Gamepad)
    ensures var t := if left then r.report.leftTrigger else r.report.rightTrigger;
      && 0.0 <= t <= 1.0
      && (0.0 <= value <= 1.0 ==> t == value)
    ensures left ==> r.report == g.report.(leftTrigger := r.report.leftTrigger)
    ensures !left ==> r.report == g.report.(rightTrigger := r.report.rightTrigger)
    ensures r.updates == g.updates + 1 && r.index == g.index && r.active == g.active
  {
    var t := JsonValue.PyClamp(value, 0.0, 1.0);
    g.(report := if left then g.report.(leftTrigger := t) else g.report.(rightTrigger := t), updates := g.updates + 1)
  }

  /** `reset()`: the neutral report, sent once. */
  function Reset(g: Gamepad): (r: Gamepad)
    ensures r.report == NeutralReport && r.updates == g.updates + 1
    ensures r.index == g.index && r.active == g.active
  {
    g.(report := NeutralReport, updates := g.updates + 1)
  }

  /** `close()`: the first call resets the device and marks the gamepad
      closed; later calls do nothing. */
  function Close(g: Gamepad): (r: Gamepad)
    ensures !r.active && r.index == g.index
    ensures g.active ==> r.report == NeutralReport && r.updates == g.updates + 1
    ensures !g.active ==> r == g
  {
    if g.active then Reset(g).(active := false) else g
  }

  /** Closing twice is closing once: the device is reset a single time. */
  lemma {:induction false} CloseIdempotent(g: Gamepad)
    ensures Close(Close(g)) == Close(g)
    ensures Close(g).updates <= g.updates + 1
  {
  }

  /** Every operation keeps a report within the device's range. */
  lemma {:induction false} OperationsInRange(g: Gamepad, name: string, left: bool, x: real, y: real)
    requires InRange(g.report)
    ensures InRange(PressButton(g, name).report) && InRange(ReleaseButton(g, name).report)
    ensures InRange(SetJoystick(g, left, x, y).report) && InRange(SetTrigger(g, left, x).report)
    ensures InRange(Reset(g).report) && InRange(Close(g).report)
  {
  }

  /** Pressing then releasing the same known button leaves it up; the other
      buttons are as before. */
  lemma {:induction false} PressRelease(g: Gamepad, name: string)
    requires LookupButton(name).Some?
    ensures var r := ReleaseButton(PressButton(g, name), name);
      && r.report.buttons == g.report.buttons - {LookupButton(name).value}
      && r.updates == g.updates + 2
  {
  }

  // ---------------------------------------------------------------------
  // The manager

  /** `GamepadManager`: the capacity, the open gamepads by player index, and
      the next index to hand out. */
  datatype Manager = Manager(maxControllers: int, pads: map<nat, Gamepad>, nextIndex: nat)

  /** `GamepadManager(max_controllers)`. */
  function NewManager(maxControllers: int): (m: Manager)
    ensures |m.pads| == 0 && m.nextIndex == 0
  {
    Manager(maxControllers, map[], 0)
  }

  /** `connected_count`. */
  function ConnectedCount(m: Manager): nat { |m.pads| }

  /** Every stored gamepad is open, sits under its own index, and that index
      was handed out before; the count never exceeds the capacity. */
  ghost predicate ValidManager(m: Manager) {
    && (forall i | i in m.pads :: i < m.nextIndex && m.pads[i].index == i && m.pads[i].active)
    && |m.pads| <= if m.maxControllers < 0 then 0 else m.maxControllers
  }

  /** `create_gamepad`: `None` once the count reaches the capacity; otherwise
      a new gamepad under the next index, which then moves on by one. */
  function CreateGamepad(m: Manager): (r: (Manager, Option<Gamepad>))
    ensures r.1.None? <==> |m.pads| >= m.maxControllers
    ensures r.1.None? ==> r.0 == m
    ensures r.1.Some? ==>
      && r.1.value == NewGamepad(m.nextIndex)
      && r.0.pads == m.pads[m.nextIndex := r.1.value]
      && r.0.nextIndex == m.nextIndex + 1
    ensures r.0.maxControllers == m.maxControllers
  {
    if |m.pads| >= m.maxControllers then (m, None)
    else
      var g := NewGamepad(m.nextIndex);
      (m.(pads := m.pads[m.nextIndex := g], nextIndex := m.nextIndex + 1), Some(g))
  }

  /** `remove_gamepad`: an unknown index changes nothing; a known one is
      closed and dropped, and only it. The closed gamepad is returned. */
  function RemoveGamepad(m: Manager, index: nat): (r: (Manager, Option<Gamepad>))
    ensures index !in m.pads ==> r == (m, None)
    ensures index in m.pads ==>
      && r.0 == m.(pads := m.pads - {index})
      && r.1 == Some(Close(m.pads[index]))
  {
    if index in m.pads then (m.(pads := m.pads - {index}), Some(Close(m.pads[index])))
    else (m, None)
  }

  /** `get_gamepad`. */
  function GetGamepad(m: Manager, index: nat): (r: Option<Gamepad>)
    ensures r.Some? <==> index in m.pads
    ensures r.Some? ==> r.value == m.pads[index]
    ensures ValidManager(m) && r.Some? ==> r.value.active && r.value.index == index
  {
    if index in m.pads then Some(m.pads[index]) else None
  }

  /** `close_all`: every gamepad closed, none left; the closed ones are
      returned under their indices. */
  function CloseAll(m: Manager): (r: (Manager, map<nat, Gamepad>))
    ensures ConnectedCount(r.0) == 0
    ensures r.0.nextIndex == m.nextIndex && r.0.maxControllers == m.maxControllers
    ensures r.1.Keys == m.pads.Keys
    ensures forall i | i in r.1 :: r.1[i] == Close(m.pads[i]) && !r.1[i].active
  {
    (m.(pads := map[]), map i | i in m.pads :: Close(m.pads[i]))
  }

  lemma {:induction false} NewManagerValid(maxControllers: int)
    ensures ValidManager(NewManager(maxControllers))
  {
  }

  /** A new gamepad takes an index never handed out before, and the count
      grows by exactly one. */
  lemma {:induction false} CreateValid(m: Manager)
    requires ValidManager(m)
    ensures var (m', g) := CreateGamepad(m);
      && ValidManager(m')
      && (g.Some? ==> g.value.index !in m.pads && ConnectedCount(m') == ConnectedCount(m) + 1)
      && (g.Some? ==> forall i | i in m.pads :: i < g.value.index)
      && GetGamepad(m', m.nextIndex) == g
  {
  }

  lemma {:induction false} RemoveValid(m: Manager, index: nat)
    requires ValidManager(m)
    ensures var m' := RemoveGamepad(m, index).0;
      && ValidManager(m')
      && ConnectedCount(m') == if index in m.pads then ConnectedCount(m) - 1 else ConnectedCount(m)
  {
    if index in m.pads {
      var m' := RemoveGamepad(m, index).0;
      assert m'.pads.Keys == m.pads.Keys - {index};
    }
  }

  lemma {:induction false} CloseAllValid(m: Manager)
    requires ValidManager(m)
    ensures ValidManager(CloseAll(m).0)
  {
  }

  /** Replacing an open gamepad by an open gamepad of the same index keeps
      the manager valid. */
  lemma {:induction false} UpdateValid(m: Manager, index: nat, g: Gamepad)
    requires ValidManager(m) && index in m.pads
    requires g.index == index && g.active
    ensures ValidManager(m.(pads := m.pads[index := g]))
  {
    assert m.pads[index := g].Keys == m.pads.Keys;
  }

  /** An index freed by `remove_gamepad` is not handed out again. */
  lemma {:induction false} RemovedIndexNotReused(m: Manager, index: nat)
    requires ValidManager(m) && index in m.pads
    ensures var g := CreateGamepad(RemoveGamepad(m, index).0).1;
      g.Some? && g.value.index != index
  {
  }

  // ---------------------------------------------------------------------
  // Runs of operations

  datatype ManagerOp = Create | Remove(index: nat) | CloseEverything

  /** One operation: the manager after it, and the index it handed out if it
      created a gamepad. */
  function Step(m: Manager, op: ManagerOp): (r: (Manager, seq<nat>))
    ensures r.0.maxControllers == m.maxControllers
  {
    match op
    case Create =>
      var (m1, g) := CreateGamepad(m);
      (m1, if g.Some? then [g.value.index] else [])
    case Remove(i) => (RemoveGamepad(m, i).0, [])
    case CloseEverything => (CloseAll(m).0, [])
  }

  /** The manager after a run of operations, with the indices the successful
      creations handed out, in order. */
  function Run(m: Manager, ops: seq<ManagerOp>): (r: (Manager, seq<nat>))
    ensures r.0.maxControllers == m.maxControllers
    decreases |ops|
  {
    if |ops| == 0 then (m, [])
    else
      var (m1, first) := Step(m, ops[0]);
      var (m2, rest) := Run(m1, ops[1..]);
      (m2, first + rest)
  }

  predicate Increasing(s: seq<nat>) {
    forall i, j | 0 <= i < j < |s| :: s[i] < s[j]
  }

  predicate Within(s: seq<nat>, lo: nat, hi: nat) {
    forall i | 0 <= i < |s| :: lo <= s[i] < hi
  }

  lemma {:induction false} StepValid(m: Manager, op: ManagerOp)
    requires ValidManager(m)
    ensures var (m', issued) := Step(m, op);
      && ValidManager(m')
      && m.nextIndex <= m'.nextIndex
      && |issued| <= 1
      && Within(issued, m.nextIndex, m'.nextIndex)
  {
    match op
    case Create => CreateValid(m);
    case Remove(i) => RemoveValid(m, i);
    case CloseEverything => CloseAllValid(m);
  }

  lemma {:induction false} IncreasingConcat(a: seq<nat>, b: seq<nat>, lo: nat, mid: nat, hi: nat)
    requires |a| <= 1 && Within(a, lo, mid) && lo <= mid
    requires Increasing(b) && Within(b, mid, hi) && mid <= hi
    ensures Increasing(a + b) && Within(a + b, lo, hi)
  {
    var s := a + b;
    forall i, j | 0 <= i < j < |s|
      ensures s[i] < s[j]
    {
      assert s[j] == b[j - |a|];
      if i < |a| {
        assert s[i] == a[i];
      } else {
        assert s[i] == b[i - |a|];
      }
    }
    forall i | 0 <= i < |s|
      ensures lo <= s[i] < hi
    {
      if i < |a| {
        assert s[i] == a[i];
      } else {
        assert s[i] == b[i - |a|];
      }
    }
  }

  /** Over any run, the indices handed out are strictly increasing, start at
      the manager's next index and stay below the final one: no index is
      ever handed out twice, whatever was removed in between. The manager
      stays valid throughout. */
  lemma {:induction false} RunIndicesIncrease(m: Manager, ops: seq<ManagerOp>)
    requires ValidManager(m)
    ensures var (m', issued) := Run(m, ops);
      && ValidManager(m')
      && m.nextIndex <= m'.nextIndex
      && Within(issued, m.nextIndex, m'.nextIndex)
      && Increasing(issued)
    decreases |ops|
  {
    if |ops| > 0 {
      StepValid(m, ops[0]);
      var (m1, first) := Step(m, ops[0]);
      RunIndicesIncrease(m1, ops[1..]);
      var (m2, rest) := Run(m1, ops[1..]);
      IncreasingConcat(first, rest, m.nextIndex, m1.nextIndex, m2.nextIndex);
    }
  }
}
