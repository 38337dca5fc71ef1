/** `BridgeRuntime` and the start-up of `main` in
    `desktop-app/src/bridge/virtual-gamepad-bridge.py`: the bridge's profile
    state, and its handlers for the join acknowledgement, configuration
    updates, controller input, disconnection, session close and shutdown.

    Each handler takes the decoded event (`None` for a missing argument)
    and returns the new runtime; a handler that raises in Python leaves
    whatever it had already changed, and `os._exit` is an exit status
    beside the runtime. Logging is left out. */
module BridgeRuntime {
  import opened Wrappers
  import opened Text
  import opened JsonValue
  import opened Profiles
  import opened VirtualBridge
  import opened Pads
  import Relay

  /** The bridge's state: its pad, the per-profile virtual maps, the active
      and default profile ids, whether `--profile` locked the profile, and
      the session it joins. */
  datatype Runtime = Runtime(
    pad: Pad,
    maps: ProfileMaps,
    active: string,
    defaultId: string,
    locked: bool,
    code: string,
    name: string)

  /** A handler's result: the runtime, and the status passed to `os._exit`
      if the handler ends the process. */
  datatype Outcome = Outcome(rt: Runtime, exit: Option<int>)

  /** What start-up needs from the command line. */
  datatype Args = Args(code: string, profile: string, name: string, device: string, dryRun: bool)

  /** Why start-up gives up (each returns status 1). */
  datatype StartError = MissingCode | MissingCatalog | CatalogRaised | NoProfiles

  /** The runtime the handlers keep: well-formed maps whose active profile
      is one of them, a pad in step with its device, and a normal non-empty
      session code. */
  ghost predicate Valid(rt: Runtime) {
    && ProfileMapsValid(rt.maps)
    && rt.active in rt.maps.values
    && InSync(rt.pad)
    && rt.code != "" && Relay.IsNormalCode(rt.code)
  }

  /** The pad `main` builds for the arguments. */
  function PadFor(args: Args): Pad {
    NewPad(if args.dryRun then DryRun else if args.device == "xbox" then Xbox360 else DualShock4)
  }

  /** `str((catalog.get("defaults") or {}).get("gameProfileId", "platformer"))`;
      `None` when `defaults` is a truthy non-dict. */
  function DefaultProfileId(catalog: Json): Option<string> {
    var defaults := OrEmpty(Get(catalog, "defaults"));
    if !defaults.JObj? then None
    else
      match Get(defaults, "gameProfileId")
      case None => Some("platformer")
      case Some(v) => Some(PyStr(v))
  }

  /** `main` up to the start of the socket loop. `catalog` is the decoded
      `config/profiles.json`, `None` when the file is missing. */
  function Start(args: Args, catalog: Option<Json>): (r: Result<Runtime, StartError>)
    ensures r.Success? ==> r.value.locked == (args.profile != "") && r.value.pad.pressed == {}
    ensures r.Success? ==> r.value.code == NormalizeSessionCode(args.code)
  {
    var code := NormalizeSessionCode(args.code);
    if code == "" then Failure(MissingCode)
    else if catalog.None? then Failure(MissingCatalog)
    else
      match BuildProfileMaps(catalog.value)
      case None => Failure(CatalogRaised)
      case Some(maps) =>
        match DefaultProfileId(catalog.value)
        case None => Failure(CatalogRaised)
        case Some(defaultId) =>
          var profileId := ResolveProfileId(args.profile, maps, defaultId);
          if |maps.keys| == 0 then Failure(NoProfiles)
          else
            Success(Runtime(PadFor(args), maps, profileId, profileId, args.profile != "", code,
              args.name + " (" + Upper(args.device) + ")"))
  }

  /** A runtime that starts is valid: its profile is one the catalog has. */
  lemma {:induction false} StartValid(args: Args, catalog: Option<Json>)
    ensures Start(args, catalog).Success? ==> Valid(Start(args, catalog).value)
  {
    var r := Start(args, catalog);
    if r.Success? {
      BuildProfileMapsValid(catalog.value);
      var defaultId := DefaultProfileId(catalog.value).value;
      ResolveProfileIdSpec(args.profile, r.value.maps, defaultId);
      NewPadInSync(r.value.pad.kind);
    }
  }

  /** Start-up fails without a code, without the catalog, or when the
      catalog has no profile. */
  lemma {:induction false} StartFails(args: Args, catalog: Option<Json>)
    ensures NormalizeSessionCode(args.code) == "" ==> Start(args, catalog) == Failure(MissingCode)
    ensures NormalizeSessionCode(args.code) != "" && catalog.None? ==> Start(args, catalog) == Failure(MissingCatalog)
    ensures Start(args, catalog).Success? ==> |Start(args, catalog).value.maps.keys| > 0
  {
  }

  // ---------------------------------------------------------------------
  // Profiles

  /** `_set_active_profile`: the resolved id becomes active unless it is "". */
  function SetActiveProfile(rt: Runtime, profileId: string): (r: Runtime)
    ensures r.maps == rt.maps && r.pad == rt.pad && r.locked == rt.locked
  {
    var resolved := ResolveProfileId(profileId, rt.maps, rt.defaultId);
    if resolved == "" then rt else rt.(active := resolved)
  }

  lemma {:induction false} SetActiveProfileValid(rt: Runtime, profileId: string)
    requires Valid(rt)
    ensures Valid(SetActiveProfile(rt, profileId))
    ensures Lower(PyStrip(profileId)) in rt.maps.values ==> SetActiveProfile(rt, profileId).active == Lower(PyStrip(profileId))
  {
    ResolveProfileIdSpec(profileId, rt.maps, rt.defaultId);
  }

  /** `_ingest_profile_payload` on the maps: a dict with a non-empty id
      stores its normalised virtual map under that id; anything else changes
      nothing; `None` when normalising the map raises. */
  function Ingest(maps: ProfileMaps, payload: Json): (r: Option<ProfileMaps>)
    ensures !payload.JObj? ==> r == Some(maps)
  {
    if !payload.JObj? then Some(maps)
    else AddProfile(maps, payload)
  }

  /** Ingesting keeps the maps well formed and loses no profile. */
  lemma {:induction false} IngestValid(maps: ProfileMaps, payload: Json)
    requires ProfileMapsValid(maps)
    ensures var r := Ingest(maps, payload);
      r.Some? ==> ProfileMapsValid(r.value) && forall k | k in maps.values :: k in r.value.values
  {
    if payload.JObj? {
      AddProfileValid(maps, payload);
    }
  }

  /** A profile payload with an id and a virtual-map dict is stored under
      that id. */
  lemma {:induction false} IngestStores(maps: ProfileMaps, payload: Json)
    requires payload.JObj? && ProfileId(payload) != ""
    requires var vm := Get(payload, "virtualMap"); vm.Some? && vm.value.JObj?
    ensures var r := Ingest(maps, payload);
      r.Some? && ProfileId(payload) in r.value.values
        && r.value.values[ProfileId(payload)] == VirtualEntries(Get(payload, "virtualMap").value.entries, PyStrip)
  {
    var vm := Get(payload, "virtualMap").value;
    if !PyTruthy(Some(vm)) {
      assert vm == JObj([]);
    }
  }

  /** The runtime with `payload` ingested, and whether ingesting finished
      (it did not raise). */
  function IngestInto(rt: Runtime, payload: Json): (r: (Runtime, bool))
    ensures r.0.pad == rt.pad && r.0.active == rt.active && r.0.locked == rt.locked
  {
    match Ingest(rt.maps, payload)
    case None => (rt, false)
    case Some(maps) => (rt.(maps := maps), true)
  }

  lemma {:induction false} IngestIntoValid(rt: Runtime, payload: Json)
    requires Valid(rt)
    ensures Valid(IngestInto(rt, payload).0)
  {
    IngestValid(rt.maps, payload);
  }

  /** The requested profile id of a config, and whether reading it
      finished: `config.get("gameProfileId")` raises on a non-dict. */
  function RequestedProfile(config: Json): (r: (Option<Json>, bool))
    ensures !r.1 ==> r.0.None?
  {
    if config.JObj? then (Get(config, "gameProfileId"), true) else (None, false)
  }

  /** The runtime after a truthy requested id is applied. */
  function ApplyRequest(rt: Runtime, requested: Option<Json>): (r: Runtime)
    ensures !PyTruthy(requested) ==> r == rt
  {
    if PyTruthy(requested) then SetActiveProfile(rt, PyStr(requested.value)) else rt
  }

  lemma {:induction false} ApplyRequestValid(rt: Runtime, requested: Option<Json>)
    requires Valid(rt)
    ensures Valid(ApplyRequest(rt, requested))
  {
    if PyTruthy(requested) {
      SetActiveProfileValid(rt, PyStr(requested.value));
    }
  }

  // ---------------------------------------------------------------------
  // Handlers

  /** `_handle_join_ack(response)`: a missing or failed response exits with
      status 1; otherwise the response's profile is ingested and, unless
      the profile is locked, its configured profile becomes active. */
  function OnJoinAck(rt: Runtime, response: Option<Json>): (r: Outcome)
    ensures r.exit.Some? <==> !PyTruthy(response) || (response.value.JObj? && !PyTruthy(Get(response.value, "ok")))
    ensures r.exit.Some? ==> r == Outcome(rt, Some(1))
    ensures rt.locked ==> r.rt.active == rt.active
  {
    if !PyTruthy(response) then Outcome(rt, Some(1))
    else
      var resp := response.value;
      if !resp.JObj? then Outcome(rt, None)
      else if !PyTruthy(Get(resp, "ok")) then Outcome(rt, Some(1))
      else
        var (rt1, done) := IngestInto(rt, OrEmpty(Get(resp, "profile")));
        if !done || rt1.locked then Outcome(rt1, None)
        else
          var (requested, _) := RequestedProfile(OrEmpty(Get(resp, "config")));
          Outcome(ApplyRequest(rt1, requested), None)
  }

  /** `on_config_updated(event)`: ignored when the profile is locked;
      otherwise the event's profile is ingested and a truthy
      `config.gameProfileId` becomes active. */
  function OnConfigUpdated(rt: Runtime, event: Option<Json>): (r: Runtime)
    ensures rt.locked ==> r == rt
    ensures r.pad == rt.pad && r.locked == rt.locked
  {
    if rt.locked then rt
    else
      var e := OrEmpty(event);
      if !e.JObj? then rt
      else
        var config := OrEmpty(Get(e, "config"));
        var (rt1, done) := IngestInto(rt, OrEmpty(Get(e, "profile")));
        if !done then rt1
        else
          var (requested, _) := RequestedProfile(config);
          ApplyRequest(rt1, requested)
  }

  /** The virtual map of the active profile, `{}` if it has none. */
  function ActiveMap(rt: Runtime): VirtualMap {
    if rt.active in rt.maps.values then rt.maps.values[rt.active] else map[]
  }

  /** `on_session_input(event)`: the frame derived from the payload with the
      active profile's map is applied to the pad. A payload that is not a
      dict, or a value `float()` rejects, raises before the pad is touched. */
  function OnSessionInput(rt: Runtime, event: Option<Json>): (r: Runtime)
    ensures r.maps == rt.maps && r.active == rt.active && r.locked == rt.locked
  {
    var e := OrEmpty(event);
    if !e.JObj? then rt
    else
      var payload := OrEmpty(Get(e, "payload"));
      if !payload.JObj? then rt
      else
        match DeriveActions(payload, ActiveMap(rt))
        case None => rt
        case Some(f) => rt.(pad := Apply(rt.pad, f).0)
  }

  /** `disconnect`: the pad is reset. */
  function OnDisconnect(rt: Runtime): (r: Runtime)
    ensures r.pad.pressed == {} && r.maps == rt.maps && r.active == rt.active
  {
    rt.(pad := Reset(rt.pad))
  }

  /** `on_session_closed`: the pad is reset and the process exits with 0. */
  function OnSessionClosed(rt: Runtime): (r: Outcome)
    ensures r.exit == Some(0) && r.rt.pad.pressed == {}
  {
    Outcome(OnDisconnect(rt), Some(0))
  }

  /** `shutdown(signal)`: the pad is reset, then `client.disconnect()` runs;
      on a connected client python-socketio calls the `disconnect` handler
      before returning, which resets the pad a second time. The process then
      exits with 0. */
  function Shutdown(rt: Runtime, connected: bool): (r: Outcome)
    ensures r.exit == Some(0) && r.rt.pad.pressed == {}
    ensures r.rt.maps == rt.maps && r.rt.active == rt.active && r.rt.locked == rt.locked
    ensures !connected ==> r == OnSessionClosed(rt)
  {
    var once := OnDisconnect(rt);
    Outcome(if connected then OnDisconnect(once) else once, Some(0))
  }

  /** A signal leaves the device neutral after one update, or after two when
      the client was connected; a dry run has no device to update. */
  lemma {:induction false} ShutdownUpdates(rt: Runtime, connected: bool)
    requires Valid(rt) && rt.pad.kind != DryRun
    ensures Shutdown(rt, connected).rt.pad.device ==
      Device(NeutralReport, rt.pad.device.updates + if connected then 2 else 1)
  {
    ResetInSync(rt.pad);
    ResetInSync(Reset(rt.pad));
  }

  // ---------------------------------------------------------------------
  // Properties

  lemma {:induction false} OnJoinAckValid(rt: Runtime, response: Option<Json>)
    requires Valid(rt)
    ensures Valid(OnJoinAck(rt, response).rt)
  {
    if PyTruthy(response) && response.value.JObj? && PyTruthy(Get(response.value, "ok")) {
      var rt1 := IngestInto(rt, OrEmpty(Get(response.value, "profile"))).0;
      IngestIntoValid(rt, OrEmpty(Get(response.value, "profile")));
      ApplyRequestValid(rt1, RequestedProfile(OrEmpty(Get(response.value, "config"))).0);
    }
  }

  lemma {:induction false} OnConfigUpdatedValid(rt: Runtime, event: Option<Json>)
    requires Valid(rt)
    ensures Valid(OnConfigUpdated(rt, event))
  {
    var e := OrEmpty(event);
    if !rt.locked && e.JObj? {
      var rt1 := IngestInto(rt, OrEmpty(Get(e, "profile"))).0;
      IngestIntoValid(rt, OrEmpty(Get(e, "profile")));
      ApplyRequestValid(rt1, RequestedProfile(OrEmpty(Get(e, "config"))).0);
    }
  }

  /** An unlocked bridge ingests the event's profile and then applies the
      requested id. */
  lemma {:induction false} ConfigUpdateSteps(rt: Runtime, e: Json)
    requires !rt.locked && e.JObj? && PyTruthy(Some(e))
    requires IngestInto(rt, OrEmpty(Get(e, "profile"))).1
    ensures OnConfigUpdated(rt, Some(e)) ==
      ApplyRequest(IngestInto(rt, OrEmpty(Get(e, "profile"))).0, RequestedProfile(OrEmpty(Get(e, "config"))).0)
  {
  }

  /** An unlocked bridge told by a configuration update (without a
      profile payload) to use a profile id switches to that id's resolution,
      and changes nothing else; with `ResolveProfileIdSpec`, a profile it
      has is taken as asked. */
  lemma {:induction false} ConfigSwitchesProfile(rt: Runtime, e: Json, id: string)
    requires !rt.locked
    requires e.JObj? && Get(e, "profile").None? && IsDict(Get(e, "config"))
    requires Get(Get(e, "config").value, "gameProfileId") == Some(JStr(id))
    requires id != "" && ResolveProfileId(id, rt.maps, rt.defaultId) != ""
    ensures OnConfigUpdated(rt, Some(e)) == rt.(active := ResolveProfileId(id, rt.maps, rt.defaultId))
  {
    assert OrEmpty(Get(e, "profile")) == JObj([]);
    assert IngestInto(rt, JObj([])) == (rt, true);
    ConfigUpdateSteps(rt, e);
    var requested := RequestedProfile(OrEmpty(Get(e, "config"))).0;
    assert requested == Some(JStr(id));
    ApplyRequestString(rt, id);
  }

  /** A non-empty string request sets that profile. */
  lemma {:induction false} ApplyRequestString(rt: Runtime, id: string)
    requires id != "" && ResolveProfileId(id, rt.maps, rt.defaultId) != ""
    ensures ApplyRequest(rt, Some(JStr(id))) == rt.(active := ResolveProfileId(id, rt.maps, rt.defaultId))
  {
  }

  /** After input the pad holds exactly the digital actions of the frame
      derived with the active profile's map, and stays in step with its
      device. */
  lemma {:induction false} OnSessionInputApplies(rt: Runtime, payload: Json)
    requires Valid(rt) && payload.JObj? && PyTruthy(Some(payload))
    requires DeriveActions(payload, ActiveMap(rt)).Some?
    ensures var r := OnSessionInput(rt, Some(JObj([("payload", payload)])));
      && r.pad.pressed == Digital(rt.pad.kind, DeriveActions(payload, ActiveMap(rt)).value.actions)
      && Valid(r)
  {
    ApplyInSync(rt.pad, DeriveActions(payload, ActiveMap(rt)).value);
  }

  lemma {:induction false} OnSessionInputValid(rt: Runtime, event: Option<Json>)
    requires Valid(rt)
    ensures Valid(OnSessionInput(rt, event))
  {
    var e := OrEmpty(event);
    if e.JObj? {
      var payload := OrEmpty(Get(e, "payload"));
      if payload.JObj? {
        var f := DeriveActions(payload, ActiveMap(rt));
        if f.Some? {
          ApplyInSync(rt.pad, f.value);
        }
      }
    }
  }

  /** Disconnecting, closing and shutting down keep the runtime valid with
      nothing held. */
  lemma {:induction false} ResetHandlersValid(rt: Runtime, connected: bool)
    requires Valid(rt)
    ensures Valid(OnDisconnect(rt)) && Valid(OnSessionClosed(rt).rt) && Valid(Shutdown(rt, connected).rt)
  {
    ResetInSync(rt.pad);
  }
}
