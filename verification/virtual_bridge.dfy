/** The pure part of the Python virtual-gamepad bridge
    (`desktop-app/src/bridge/virtual-gamepad-bridge.py`): session-code and
    action normalisation, the per-profile virtual maps it builds from the
    catalog, profile resolution, and the derivation of one frame (an action
    set plus clamped stick and trigger values) from a controller payload.

    Python's `str()` is written out for the JSON values it meets here;
    anything that raises in Python (`float(None)`, `.items()` on a list,
    `.get` on a string) is `None`. */
module VirtualBridge {
  import opened Wrappers
  import opened Text
  import opened JsonValue
  import opened Profiles
  import Relay

  // ---------------------------------------------------------------------
  // Python's str() on decoded JSON

  /** `str(value)` for the JSON values the model covers: strings are
      themselves, `None`, `True` and `False` are their names; numbers, lists
      and objects give "" here (see README, "Left out"). */
  function PyStr(j: Json): string {
    match j
    case JStr(s) => s
    case JNull => "None"
    case JBool(b) => if b then "True" else "False"
    case _ => ""
  }

  /** `str(value or "")`: a missing or falsy value is the empty string. */
  function PyStrOr(v: Option<Json>): (r: string)
    ensures !PyTruthy(v) ==> r == ""
  {
    if PyTruthy(v) then PyStr(v.value) else ""
  }

  /** `value or {}`: a falsy or missing value becomes an empty object. */
  function OrEmpty(v: Option<Json>): (r: Json)
    ensures PyTruthy(v) ==> r == v.value
  {
    if PyTruthy(v) then v.value else JObj([])
  }

  /** The entries of `value or {}` once a non-dict has been replaced by `{}`. */
  function DictEntries(v: Option<Json>): seq<(string, Json)> {
    Entries(OrEmpty(v))
  }

  // ---------------------------------------------------------------------
  // Codes and actions

  /** `normalize_session_code`: the upper-cased alphanumerics of the
      argument, at most six; the same normal form the relay applies
      (`SessionCodePipeline`). */
  function NormalizeSessionCode(raw: string): (r: string)
    ensures Relay.IsNormalCode(r)
  {
    Relay.NormalizeCode(raw)
  }

  /** The Python expression: upper-case, strip, keep `isalnum`, slice to six.
      It agrees with the relay's trim-first normalisation. */
  lemma {:induction false} SessionCodePipeline(raw: string)
    ensures NormalizeSessionCode(raw) == Take(Keep(PyStrip(Upper(raw)), IsAlnum), Relay.CodeLength)
  {
    var u := Upper(raw);
    KeepTrim(u, IsPySpace, IsAlnum);
    KeepCongruent(u, IsAlnum, Relay.IsCodeChar);
    MapPrefixKeep(raw, u, Relay.CodeLength, UpperChar, Relay.IsCodeChar);
  }

  lemma {:induction false} SessionCodeIdempotent(raw: string)
    ensures NormalizeSessionCode(NormalizeSessionCode(raw)) == NormalizeSessionCode(raw)
  {
    Relay.NormalizeCodeIdempotent(raw);
  }

  /** The characters `normalize_action` keeps once the text is lower-cased. */
  predicate IsActionChar(c: char) { IsAlnum(c) || c == '_' }

  /** `normalize_action`: stripped, lower-cased, only alphanumerics and `_`,
      in one pass (`NormalizeActionPipeline` relates it to the expression). */
  function NormalizeAction(action: string): (r: string)
    ensures |r| <= |action| && All(r, IsTokenChar)
  {
    MapPrefix(action, |action|, LowerChar, IsTokenChar)
  }

  /** The Python expression: strip, lower-case, keep alphanumerics and `_`. */
  lemma {:induction false} NormalizeActionPipeline(action: string)
    ensures NormalizeAction(action) == Keep(Lower(PyStrip(action)), IsActionChar)
  {
    var t := PyStrip(action);
    var m := Lower(t);
    MapPrefixTrim(action, |action|, LowerChar, IsTokenChar, IsPySpace);
    MapPrefixKeep(t, m, |action|, LowerChar, IsTokenChar);
    KeepCongruent(m, IsTokenChar, IsActionChar);
    TakeFixed(Keep(m, IsTokenChar), |action|);
  }

  /** Exactly the strings of lower-case alphanumerics and `_` are left
      unchanged. */
  lemma {:induction false} NormalizeActionFixed(s: string)
    ensures NormalizeAction(s) == s <==> All(s, IsTokenChar)
  {
    if All(s, IsTokenChar) {
      MapPrefixFixed(s, |s|, LowerChar, IsTokenChar);
    }
  }

  /** The action one JSON value names: `normalize_action(entry)`. */
  function ActionOf(j: Json): string {
    NormalizeAction(PyStrOr(Some(j)))
  }

  /** The list comprehension of `as_action_list`: each entry normalised,
      the empty ones dropped, order kept. */
  function NormalizeEach(items: seq<Json>): (r: seq<string>)
    ensures |r| <= |items|
    ensures forall i | 0 <= i < |r| :: IsToken(r[i])
  {
    if |items| == 0 then []
    else
      var a := ActionOf(items[0]);
      (if a != "" then [a] else []) + NormalizeEach(items[1..])
  }

  /** An action is in the list exactly when it is non-empty and some entry
      normalises to it. */
  lemma {:induction false} NormalizeEachMembers(items: seq<Json>, x: string)
    ensures x in NormalizeEach(items) <==> x != "" && exists i | 0 <= i < |items| :: ActionOf(items[i]) == x
  {
    if |items| > 0 {
      NormalizeEachMembers(items[1..], x);
      if exists i | 0 <= i < |items| :: ActionOf(items[i]) == x {
        var i :| 0 <= i < |items| && ActionOf(items[i]) == x;
        if i > 0 {
          assert items[1..][i - 1] == items[i];
        }
      }
      if exists i | 0 <= i < |items| - 1 :: ActionOf(items[1..][i]) == x {
        var i :| 0 <= i < |items| - 1 && ActionOf(items[1..][i]) == x;
        assert items[i + 1] == items[1..][i];
      }
    }
  }

  /** `as_action_list`: a list is normalised entry by entry; any other value
      is one action, or none when it normalises to "". */
  function AsActionList(value: Json): (r: seq<string>)
    ensures forall i | 0 <= i < |r| :: IsToken(r[i])
  {
    if value.JArr? then NormalizeEach(value.items)
    else
      var single := ActionOf(value);
      if single != "" then [single] else []
  }

  /** A list of actions that are already normal comes back unchanged. */
  lemma {:induction false} NormalizeEachFixed(actions: seq<string>)
    requires forall i | 0 <= i < |actions| :: IsToken(actions[i])
    ensures NormalizeEach(seq(|actions|, i requires 0 <= i < |actions| => JStr(actions[i]))) == actions
  {
    NormalizeEachStrings(seq(|actions|, i requires 0 <= i < |actions| => JStr(actions[i])), actions);
  }

  lemma {:induction false} NormalizeEachStrings(items: seq<Json>, actions: seq<string>)
    requires |items| == |actions|
    requires forall i | 0 <= i < |items| :: items[i] == JStr(actions[i]) && IsToken(actions[i])
    ensures NormalizeEach(items) == actions
    decreases |items|
  {
    if |items| > 0 {
      NormalizeActionFixed(actions[0]);
      assert ActionOf(items[0]) == actions[0];
      NormalizeEachStrings(items[1..], actions[1..]);
      assert actions == [actions[0]] + actions[1..];
    }
  }

  // ---------------------------------------------------------------------
  // Virtual maps

  /** The `for … in raw_map.items()` loop of `normalize_virtual_map`, with
      `keyOf` the key a button name is stored under (`PyStrip`): a later
      name with the same key overwrites an earlier one, and a name whose key
      is "" is skipped. */
  function VirtualEntries(entries: seq<(string, Json)>, keyOf: string -> string): (r: VirtualMap)
    ensures forall k | k in r :: k != ""
  {
    if |entries| == 0 then map[]
    else
      var m := VirtualEntries(entries[..|entries| - 1], keyOf);
      var last := entries[|entries| - 1];
      var key := keyOf(last.0);
      if key == "" then m else m[key := AsActionList(last.1)]
  }

  lemma {:induction false} VirtualEntriesKeysAll(entries: seq<(string, Json)>, keyOf: string -> string)
    ensures forall k :: k in VirtualEntries(entries, keyOf) <==> k != "" && exists i | 0 <= i < |entries| :: keyOf(entries[i].0) == k
  {
    forall k | k != "" ensures k in VirtualEntries(entries, keyOf) <==> exists i | 0 <= i < |entries| :: keyOf(entries[i].0) == k {
      VirtualEntriesKeys(entries, keyOf, k);
    }
  }

  /** A key is present exactly when some name has it as its key. */
  lemma {:induction false} VirtualEntriesKeys(entries: seq<(string, Json)>, keyOf: string -> string, k: string)
    requires k != ""
    ensures k in VirtualEntries(entries, keyOf) <==> exists i | 0 <= i < |entries| :: keyOf(entries[i].0) == k
  {
    if |entries| > 0 {
      var n := |entries| - 1;
      var init := entries[..n];
      VirtualEntriesKeys(init, keyOf, k);
      if k in VirtualEntries(entries, keyOf) && keyOf(entries[n].0) != k {
        var i :| 0 <= i < n && keyOf(init[i].0) == k;
        assert entries[i] == init[i];
      }
      if exists i | 0 <= i < |entries| :: keyOf(entries[i].0) == k {
        var i :| 0 <= i < |entries| && keyOf(entries[i].0) == k;
        if i < n {
          assert init[i] == entries[i];
        }
      }
    }
  }

  /** The key holds the actions of the last entry whose name has it as its key. */
  lemma {:induction false} VirtualEntriesLast(entries: seq<(string, Json)>, keyOf: string -> string, k: string, i: nat)
    requires k != "" && i < |entries| && keyOf(entries[i].0) == k
    requires forall j | i < j < |entries| :: keyOf(entries[j].0) != k
    ensures k in VirtualEntries(entries, keyOf) && VirtualEntries(entries, keyOf)[k] == AsActionList(entries[i].1)
  {
    var n := |entries| - 1;
    var init := entries[..n];
    var m := VirtualEntries(init, keyOf);
    var key := keyOf(entries[n].0);
    if i < n {
      assert init[i] == entries[i];
      forall j | i < j < n ensures keyOf(init[j].0) != k {
        assert init[j] == entries[j];
      }
      VirtualEntriesLast(init, keyOf, k, i);
      assert key != k;
    }
    assert VirtualEntries(entries, keyOf) == if key == "" then m else m[key := AsActionList(entries[n].1)];
  }

  /** `normalize_virtual_map(raw_map)`: `None` when `raw_map` is a truthy
      value that is not a dict (it has no `.items()`). */
  function NormalizeVirtualMap(raw: Json): (r: Option<VirtualMap>)
    ensures r.None? <==> PyTruthy(Some(raw)) && !raw.JObj?
    ensures !PyTruthy(Some(raw)) ==> r == Some(map[])
    ensures raw.JObj? ==> forall k ::
      k in r.value <==> k != "" && exists i | 0 <= i < |raw.entries| :: PyStrip(raw.entries[i].0) == k
    ensures raw.JObj? ==> r == Some(VirtualEntries(raw.entries, PyStrip))
  {
    if !PyTruthy(Some(raw)) then Some(map[])
    else if raw.JObj? then
      VirtualEntriesKeysAll(raw.entries, PyStrip);
      Some(VirtualEntries(raw.entries, PyStrip))
    else None
  }

  // ---------------------------------------------------------------------
  // Python dicts with insertion order

  /** A Python `dict` with string keys: its values together with its keys
      in insertion order (what `iter(d)` walks). */
  datatype Dict<V> = Dict(keys: seq<string>, values: map<string, V>)

  ghost predicate DictValid<V>(d: Dict<V>) {
    Distinct(d.keys) && (forall k :: k in d.values <==> k in d.keys)
  }

  function EmptyDict<V>(): (r: Dict<V>)
    ensures DictValid(r) && |r.keys| == 0
  {
    Dict([], map[])
  }

  /** `d[k] = v`: a new key goes to the end; an existing key keeps its place. */
  function Put<V>(d: Dict<V>, k: string, v: V): (r: Dict<V>)
    ensures r.values == d.values[k := v]
  {
    if k in d.values then Dict(d.keys, d.values[k := v]) else Dict(d.keys + [k], d.values[k := v])
  }

  /** Assignment keeps the dict well formed, and only appends to the key order. */
  lemma {:induction false} PutValid<V>(d: Dict<V>, k: string, v: V)
    requires DictValid(d)
    ensures DictValid(Put(d, k, v))
    ensures |d.keys| <= |Put(d, k, v).keys| && Put(d, k, v).keys[..|d.keys|] == d.keys
  {
    var r := Put(d, k, v);
    if k !in d.values {
      assert r.keys == d.keys + [k];
      forall x ensures x in r.values <==> x in r.keys {
        assert x in r.keys <==> x in d.keys || x == k;
      }
      assert r.keys[..|d.keys|] == d.keys;
    }
  }

  /** The per-profile virtual maps, keyed by profile id: every key is a
      non-empty id. */
  type ProfileMaps = Dict<VirtualMap>

  ghost predicate ProfileMapsValid(d: ProfileMaps) {
    DictValid(d) && forall k | k in d.values :: k != ""
  }

  /** `str(profile.get("id", "")).strip()`. */
  function ProfileId(profile: Json): string {
    var id := Get(profile, "id");
    PyStrip(if id.Some? then PyStr(id.value) else "")
  }

  /** One iteration of `build_profile_maps`: a profile that is not a dict
      raises; one with an empty id is skipped; otherwise its normalised
      virtual map is stored under its id. */
  function AddProfile(d: ProfileMaps, profile: Json): (r: Option<ProfileMaps>)
  {
    if !profile.JObj? then None
    else
      var id := ProfileId(profile);
      if id == "" then Some(d)
      else
        match NormalizeVirtualMap(OrEmpty(Get(profile, "virtualMap")))
        case None => None
        case Some(vm) => Some(Put(d, id, vm))
  }

  lemma {:induction false} AddProfileValid(d: ProfileMaps, profile: Json)
    requires ProfileMapsValid(d)
    ensures var r := AddProfile(d, profile);
      r.Some? ==> ProfileMapsValid(r.value) && |d.keys| <= |r.value.keys| && r.value.keys[..|d.keys|] == d.keys
  {
    if profile.JObj? && ProfileId(profile) != "" {
      match NormalizeVirtualMap(OrEmpty(Get(profile, "virtualMap")))
      case None =>
      case Some(vm) => PutProfileValid(d, ProfileId(profile), vm);
    }
  }

  /** Storing a map under a non-empty id keeps the maps well formed. */
  lemma {:induction false} PutProfileValid(d: ProfileMaps, id: string, vm: VirtualMap)
    requires ProfileMapsValid(d) && id != ""
    ensures ProfileMapsValid(Put(d, id, vm))
    ensures |d.keys| <= |Put(d, id, vm).keys| && Put(d, id, vm).keys[..|d.keys|] == d.keys
  {
    PutValid(d, id, vm);
  }

  /** The loop of `build_profile_maps` over `profiles`, starting from `d`. */
  function AddProfiles(d: ProfileMaps, profiles: seq<Json>): (r: Option<ProfileMaps>)
    decreases |profiles|
  {
    if |profiles| == 0 then Some(d)
    else
      match AddProfile(d, profiles[0])
      case None => None
      case Some(d1) => AddProfiles(d1, profiles[1..])
  }

  /** Building keeps the maps well formed and never reorders ids already
      present. */
  lemma {:induction false} AddProfilesValid(d: ProfileMaps, profiles: seq<Json>)
    requires ProfileMapsValid(d)
    ensures var r := AddProfiles(d, profiles);
      r.Some? ==> ProfileMapsValid(r.value) && |d.keys| <= |r.value.keys| && r.value.keys[..|d.keys|] == d.keys
    decreases |profiles|
  {
    if |profiles| > 0 {
      AddProfileValid(d, profiles[0]);
      var d1 := AddProfile(d, profiles[0]);
      if d1.Some? {
        AddProfilesValid(d1.value, profiles[1..]);
        var r := AddProfiles(d1.value, profiles[1..]);
        if r.Some? {
          assert r.value.keys[..|d.keys|] == r.value.keys[..|d1.value.keys|][..|d.keys|];
        }
      }
    }
  }

  /** An id is a key after building exactly when it was one before or some
      profile carries it. */
  lemma {:induction false} AddProfilesKeys(d: ProfileMaps, profiles: seq<Json>, k: string)
    requires k != ""
    requires AddProfiles(d, profiles).Some?
    ensures k in AddProfiles(d, profiles).value.values <==>
      k in d.values || exists i | 0 <= i < |profiles| :: profiles[i].JObj? && ProfileId(profiles[i]) == k
    decreases |profiles|
  {
    if |profiles| > 0 {
      var d1 := AddProfile(d, profiles[0]).value;
      AddProfilesKeys(d1, profiles[1..], k);
      assert forall i | 0 <= i < |profiles| - 1 :: profiles[1..][i] == profiles[i + 1];
      if exists i | 0 <= i < |profiles| :: profiles[i].JObj? && ProfileId(profiles[i]) == k {
        var i :| 0 <= i < |profiles| && profiles[i].JObj? && ProfileId(profiles[i]) == k;
        if i > 0 {
          assert profiles[1..][i - 1] == profiles[i];
        }
      }
    }
  }

  /** `catalog.get("gameProfiles", [])` as iterated (a catalog that is not a
      dict has no `.get`): a list gives its items,
      an empty string or dict gives nothing, and anything else raises (a
      non-empty string or dict yields strings, which have no `.get`; `None`,
      booleans and numbers are not iterable). */
  function ProfileList(catalog: Json): Option<seq<Json>> {
    if !catalog.JObj? then None
    else
      match Get(catalog, "gameProfiles")
      case None => Some([])
      case Some(JArr(items)) => Some(items)
      case Some(JStr(s)) => if s == "" then Some([]) else None
      case Some(JObj(es)) => if es == [] then Some([]) else None
      case Some(_) => None
  }

  /** `build_profile_maps(catalog)`. */
  function BuildProfileMaps(catalog: Json): (r: Option<ProfileMaps>)
  {
    match ProfileList(catalog)
    case None => None
    case Some(profiles) => AddProfiles(EmptyDict(), profiles)
  }

  lemma {:induction false} BuildProfileMapsValid(catalog: Json)
    ensures BuildProfileMaps(catalog).Some? ==> ProfileMapsValid(BuildProfileMaps(catalog).value)
  {
    var ps := ProfileList(catalog);
    if ps.Some? {
      AddProfilesValid(EmptyDict(), ps.value);
    }
  }

  /** `resolve_profile_id(requested, available, default_id)`: the stripped,
      lower-cased request if it names a profile, else the default if it
      does, else the first id in insertion order, else "". */
  function ResolveProfileId(requested: string, available: ProfileMaps, defaultId: string): (r: string)
    ensures r != "" ==> r in available.values || !DictValid(available)
  {
    var candidate := Lower(PyStrip(requested));
    if candidate in available.values then candidate
    else if defaultId in available.values then defaultId
    else if |available.keys| > 0 then available.keys[0]
    else ""
  }

  /** On well-formed maps the result is a profile id exactly when there is
      one, and it is the request whenever the request names a profile. */
  lemma {:induction false} ResolveProfileIdSpec(requested: string, available: ProfileMaps, defaultId: string)
    requires ProfileMapsValid(available)
    ensures var r := ResolveProfileId(requested, available, defaultId);
      && (r in available.values <==> |available.keys| > 0)
      && (r == "" <==> |available.keys| == 0)
      && (Lower(PyStrip(requested)) in available.values ==> r == Lower(PyStrip(requested)))
      && (Lower(PyStrip(requested)) !in available.values && defaultId in available.values ==> r == defaultId)
  {
    var r := ResolveProfileId(requested, available, defaultId);
    if |available.keys| > 0 {
      assert available.keys[0] in available.values;
    } else {
      assert forall k :: k !in available.values;
    }
  }

  // ---------------------------------------------------------------------
  // D-pad resolution

  const DpadUp: string := "dpad_up"
  const DpadDown: string := "dpad_down"
  const DpadLeft: string := "dpad_left"
  const DpadRight: string := "dpad_right"
  const DpadActions: set<string> := {DpadUp, DpadDown, DpadLeft, DpadRight}

  /** `resolve_dpad_actions`: opposite directions held together cancel
      each other; every other action passes through. */
  function ResolveDpadActions(actions: set<string>): (r: set<string>)
    ensures !(DpadUp in r && DpadDown in r) && !(DpadLeft in r && DpadRight in r)
    ensures r - DpadActions == actions - DpadActions
    ensures r <= actions
  {
    var up := DpadUp in actions;
    var down := DpadDown in actions;
    var left := DpadLeft in actions;
    var right := DpadRight in actions;
    var vertical := !(up && down);
    var horizontal := !(left && right);
    (actions - DpadActions)
      + (if up && vertical then {DpadUp} else {})
      + (if down && vertical then {DpadDown} else {})
      + (if left && horizontal then {DpadLeft} else {})
      + (if right && horizontal then {DpadRight} else {})
  }

  /** Each direction survives exactly when it is held and its opposite is not. */
  lemma {:induction false} ResolveDpadSpec(actions: set<string>)
    ensures var r := ResolveDpadActions(actions);
      && (DpadUp in r <==> DpadUp in actions && DpadDown !in actions)
      && (DpadDown in r <==> DpadDown in actions && DpadUp !in actions)
      && (DpadLeft in r <==> DpadLeft in actions && DpadRight !in actions)
      && (DpadRight in r <==> DpadRight in actions && DpadLeft !in actions)
  {
  }

  /** Without a conflicting pair nothing changes, so resolving twice is
      resolving once. */
  lemma {:induction false} ResolveDpadNoConflict(actions: set<string>)
    requires !(DpadUp in actions && DpadDown in actions) && !(DpadLeft in actions && DpadRight in actions)
    ensures ResolveDpadActions(actions) == actions
  {
    var r := ResolveDpadActions(actions);
    ResolveDpadSpec(actions);
    forall a | a in actions ensures a in r {
      if a !in DpadActions {
        assert a in actions - DpadActions;
      }
    }
  }

  lemma {:induction false} ResolveDpadIdempotent(actions: set<string>)
    ensures ResolveDpadActions(ResolveDpadActions(actions)) == ResolveDpadActions(actions)
  {
    ResolveDpadNoConflict(ResolveDpadActions(actions));
  }

  // ---------------------------------------------------------------------
  // Sticks

  /** `_extract_stick`'s choice of the stick object, as written:
      `payload.get(key) or {}` is already a dict when `key` is missing, so
      `fallback` is consulted only when `key` holds a truthy non-dict. */
  function StickSourceAsWritten(payload: Json, key: string, fallback: string): (r: Json)
    ensures r.JObj?
  {
    var raw := OrEmpty(Get(payload, key));
    var raw1 := if !raw.JObj? && fallback != "" then OrEmpty(Get(payload, fallback)) else raw;
    if raw1.JObj? then raw1 else JObj([])
  }

  /** With `leftStick` missing, the `stick` object is never read. */
  lemma {:induction false} StickFallbackIgnored(payload: Json, key: string, fallback: string)
    requires Get(payload, key).None?
    ensures StickSourceAsWritten(payload, key, fallback) == JObj([])
  {
  }

  /** A payload that carries its left stick under `stick` only. */
  const StickOnlyPayload: Json := JObj([("stick", JObj([("x", JNum(1.0)), ("y", JNum(0.0))]))])

  /** On that payload the as-written choice drops the stick that is there. */
  lemma {:induction false} StickFallbackCounterexample()
    ensures StickSourceAsWritten(StickOnlyPayload, "leftStick", "stick") == JObj([])
    ensures Get(StickOnlyPayload, "stick") == Some(JObj([("x", JNum(1.0)), ("y", JNum(0.0))]))
  {
    StickFallbackIgnored(StickOnlyPayload, "leftStick", "stick");
  }

  /** A present value that is a dict. */
  predicate IsDict(v: Option<Json>) { v.Some? && v.value.JObj? }

  /** The stick object with the fallback applied as intended: `key` when it
      holds a dict, else `fallback` when that holds one, else `{}`. */
  function StickSource(payload: Json, key: string, fallback: string): (r: Json)
    ensures r.JObj?
  {
    var raw := Get(payload, key);
    if IsDict(raw) then raw.value
    else
      var alt := if fallback != "" then Get(payload, fallback) else None;
      if IsDict(alt) then alt.value else JObj([])
  }

  /** The corrected choice reads the fallback whenever `key` holds no dict,
      and otherwise agrees with the code as written. */
  lemma {:induction false} StickSourceSpec(payload: Json, key: string, fallback: string)
    ensures IsDict(Get(payload, key)) ==>
      StickSource(payload, key, fallback) == StickSourceAsWritten(payload, key, fallback)
    ensures !IsDict(Get(payload, key)) && fallback != "" && IsDict(Get(payload, fallback)) ==>
      StickSource(payload, key, fallback) == Get(payload, fallback).value
  {
    var raw := Get(payload, key);
    if IsDict(raw) && !PyTruthy(raw) {
      assert raw.value == JObj([]);
    }
  }

  /** `clamp(obj.get(key, 0.0), lo, hi)`: a missing key reads 0.0; a present
      value `float()` cannot convert raises. */
  function ClampedField(obj: Json, key: string, lo: real, hi: real): (r: Option<real>)
    requires lo <= hi
    ensures r.Some? ==> lo <= r.value <= hi
    ensures Get(obj, key).None? ==> r == Some(PyClamp(0.0, lo, hi))
  {
    var v := Get(obj, key);
    var value := if v.Some? then v.value else JNum(0.0);
    match PyFloat(value)
    case None => None
    case Some(x) => Some(PyClamp(x, lo, hi))
  }

  // ---------------------------------------------------------------------
  // Deriving a frame

  /** What `derive_actions` returns: the action set and the six analogue
      values. */
  datatype Frame = Frame(actions: set<string>, leftX: real, leftY: real, rightX: real, rightY: real, lt: real, rt: real)

  /** A button counts as held when its value is truthy. */
  predicate Held(buttons: seq<(string, Json)>, name: string) {
    PyTruthy(Lookup(buttons, name))
  }

  /** The `dpad_<direction>` actions for the truthy `up`/`down`/`left`/`right` buttons. */
  function DirectionActions(buttons: seq<(string, Json)>): (r: set<string>)
    ensures r <= DpadActions
  {
    (if Held(buttons, "up") then {DpadUp} else {})
      + (if Held(buttons, "down") then {DpadDown} else {})
      + (if Held(buttons, "left") then {DpadLeft} else {})
      + (if Held(buttons, "right") then {DpadRight} else {})
  }

  /** The non-empty actions the virtual map gives one pressed button. */
  function ButtonActions(button: (string, Json), vmap: VirtualMap): set<string> {
    if PyTruthy(Some(button.1)) && button.0 in vmap then set a | a in vmap[button.0] && a != "" else {}
  }

  /** The union of `virtual_map` actions over the pressed buttons. */
  function MappedActions(buttons: seq<(string, Json)>, vmap: VirtualMap): set<string> {
    if |buttons| == 0 then {} else ButtonActions(buttons[0], vmap) + MappedActions(buttons[1..], vmap)
  }

  /** An action is mapped exactly when some pressed button lists it. */
  lemma {:induction false} MappedActionsMembers(buttons: seq<(string, Json)>, vmap: VirtualMap, a: string)
    ensures a in MappedActions(buttons, vmap) <==>
      a != "" && exists i | 0 <= i < |buttons| :: PyTruthy(Some(buttons[i].1)) && buttons[i].0 in vmap && a in vmap[buttons[i].0]
  {
    if |buttons| > 0 {
      MappedActionsMembers(buttons[1..], vmap, a);
      assert forall i | 0 <= i < |buttons| - 1 :: buttons[1..][i] == buttons[i + 1];
      if a != "" && exists i | 0 <= i < |buttons| :: PyTruthy(Some(buttons[i].1)) && buttons[i].0 in vmap && a in vmap[buttons[i].0] {
        var i :| 0 <= i < |buttons| && PyTruthy(Some(buttons[i].1)) && buttons[i].0 in vmap && a in vmap[buttons[i].0];
        if i > 0 {
          assert buttons[1..][i - 1] == buttons[i];
        }
      }
    }
  }

  /** The action set of a frame: the truthy directions and the mapped
      actions of the pressed buttons, with opposite directions cancelled. */
  function FrameActions(buttons: seq<(string, Json)>, vmap: VirtualMap): (r: set<string>)
    ensures !(DpadUp in r && DpadDown in r) && !(DpadLeft in r && DpadRight in r)
  {
    ResolveDpadActions(DirectionActions(buttons) + MappedActions(buttons, vmap))
  }

  /** A non-d-pad action is present exactly when a pressed button maps to
      it, and a direction is present exactly when it is asked for (by its
      button or by a mapping) and its opposite is not. */
  lemma {:induction false} FrameActionsSpec(buttons: seq<(string, Json)>, vmap: VirtualMap, a: string)
    ensures var raw := DirectionActions(buttons) + MappedActions(buttons, vmap);
      var r := FrameActions(buttons, vmap);
      && (a !in DpadActions ==> (a in r <==> a in MappedActions(buttons, vmap)))
      && (DpadUp in r <==> DpadUp in raw && DpadDown !in raw)
      && (DpadDown in r <==> DpadDown in raw && DpadUp !in raw)
      && (DpadLeft in r <==> DpadLeft in raw && DpadRight !in raw)
      && (DpadRight in r <==> DpadRight in raw && DpadLeft !in raw)
  {
    var raw := DirectionActions(buttons) + MappedActions(buttons, vmap);
    ResolveDpadSpec(raw);
    if a !in DpadActions {
      assert a in ResolveDpadActions(raw) <==> a in raw - DpadActions;
    }
  }

  /** `derive_actions(payload, virtual_map)`, with the stick fallback read as
      intended (`StickSource`). `None` is a value `float()` rejects. */
  function DeriveActions(payload: Json, vmap: VirtualMap): (r: Option<Frame>)
    ensures r.Some? ==> var f := r.value;
      && f.actions == FrameActions(DictEntries(Get(payload, "buttons")), vmap)
      && -1.0 <= f.leftX <= 1.0 && -1.0 <= f.leftY <= 1.0
      && -1.0 <= f.rightX <= 1.0 && -1.0 <= f.rightY <= 1.0
      && 0.0 <= f.lt <= 1.0 && 0.0 <= f.rt <= 1.0
      && ("lt" in f.actions ==> f.lt == 1.0)
      && ("rt" in f.actions ==> f.rt == 1.0)
  {
    var buttons := DictEntries(Get(payload, "buttons"));
    var triggers := JObj(DictEntries(Get(payload, "triggers")));
    var left := StickSource(payload, "leftStick", "stick");
    var right := StickSource(payload, "rightStick", "");
    var lx :- ClampedField(left, "x", -1.0, 1.0);
    var ly :- ClampedField(left, "y", -1.0, 1.0);
    var rx :- ClampedField(right, "x", -1.0, 1.0);
    var ry :- ClampedField(right, "y", -1.0, 1.0);
    var actions := FrameActions(buttons, vmap);
    var lt :- ClampedField(triggers, "lt", 0.0, 1.0);
    var rt :- ClampedField(triggers, "rt", 0.0, 1.0);
    Some(Frame(actions, lx, ly, rx, ry,
      if "lt" in actions then 1.0 else lt,
      if "rt" in actions then 1.0 else rt))
  }

  /** An empty payload is the neutral frame. */
  lemma {:induction false} DeriveActionsNeutral(vmap: VirtualMap)
    ensures DeriveActions(JObj([]), vmap) == Some(Frame({}, 0.0, 0.0, 0.0, 0.0, 0.0, 0.0))
  {
    assert DirectionActions([]) == {};
    assert ResolveDpadActions({}) == {};
  }
}
