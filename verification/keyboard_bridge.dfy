/** The keyboard bridge of `bridge/keyboard-bridge.js`: it joins a session
    as a bridge and turns the controller's pressed buttons into operating
    system key presses through the active game profile's keyboard map.

    The nut-js keyboard is the list of key events the bridge emits. Each
    handler takes the decoded event (`None` for a missing argument) and
    returns the new state, the key events and, for `process.exit`, an exit
    status. The promise queue that serialises key syncs is modelled by
    running each sync as one step; the catalog `getGameProfile` reads is a
    parameter. Logging is left out. */
module KeyboardBridge {
  import opened Wrappers
  import opened Text
  import opened JsonValue
  import opened Profiles
  import Catalogs
  import Relay
  import Vigem

  // ---------------------------------------------------------------------
  // Key tokens

  /** The named keys of `KEY_TOKEN_MAP`. */
  const NamedKeys: set<string> :=
    {"left", "right", "up", "down", "space", "enter", "escape", "tab",
     "left_shift", "right_shift", "left_control", "right_control", "left_alt", "right_alt"}

  /** The normalised tokens `KEY_TOKEN_MAP` holds as own properties: the
      named keys and the 26 lower-case letters its loop adds. */
  predicate HasKey(n: string) {
    n in NamedKeys || (|n| == 1 && IsLower(n[0]))
  }

  /** Whether `KEY_TOKEN_MAP[n]` is truthy as written: the map is an object
      literal, so a name it inherits from `Object.prototype` finds a
      function. After normalisation only `constructor` and `__proto__` can
      reach that case. */
  predicate HasKeyAsWritten(n: string) {
    HasKey(n) || n in Vigem.PrototypeNames
  }

  /** The token `resolveKeyToken` looks up: lower-cased, only `[a-z0-9_]`,
      in one pass (`KeyNamePipeline` relates it to the expression). */
  function KeyName(token: string): (r: string)
    ensures All(r, IsTokenChar)
  {
    MapPrefix(token, |token|, LowerChar, IsTokenChar)
  }

  /** The source's expression: trim, lower-case, drop all but `[a-z0-9_]`,
      which is the profile catalog's token normalisation. */
  lemma {:induction false} KeyNamePipeline(token: string)
    ensures KeyName(token) == NormalizeToken(token)
  {
    var t := JsTrim(token);
    var m := Lower(t);
    MapPrefixTrim(token, |token|, LowerChar, IsTokenChar, IsJsSpace);
    MapPrefixKeep(t, m, |token|, LowerChar, IsTokenChar);
    TakeFixed(Keep(m, IsTokenChar), |token|);
  }

  /** Exactly the strings of `[a-z0-9_]` are their own key names. */
  lemma {:induction false} KeyNameFixed(s: string)
    ensures KeyName(s) == s <==> All(s, IsTokenChar)
  {
    if All(s, IsTokenChar) {
      MapPrefixFixed(s, |s|, LowerChar, IsTokenChar);
    }
  }

  /** `resolveKeyToken`: the normalised token and whether a key was found.
      The key itself is named by the token. */
  function ResolveKeyToken(token: string): (r: (string, bool))
    ensures r.1 ==> r.0 != "" && All(r.0, IsTokenChar)
  {
    var n := KeyName(token);
    (n, HasKey(n))
  }

  /** `resolveKeyToken` with the inherited names the object lookup finds. */
  function ResolveKeyTokenAsWritten(token: string): (r: (string, bool))
    ensures r.0 == ResolveKeyToken(token).0
    ensures ResolveKeyToken(token).1 ==> r.1
  {
    var n := KeyName(token);
    (n, HasKeyAsWritten(n))
  }

  /** A token kept in the pressed set is resolved again on release; it finds
      the same key. */
  lemma {:induction false} ResolveKeyTokenStable(token: string)
    ensures ResolveKeyToken(ResolveKeyToken(token).0) == ResolveKeyToken(token)
  {
    KeyNameFixed(KeyName(token));
  }

  /** Single lower-case letters resolve to their key. */
  lemma {:induction false} LetterTokensResolve(token: string)
    requires |token| == 1 && IsLower(token[0])
    ensures ResolveKeyToken(token) == (token, true)
  {
    KeyNameFixed(token);
  }

  /** Digit tokens resolve to no key. */
  lemma {:induction false} DigitTokensUnresolved(token: string)
    requires |token| == 1 && IsDigit(token[0])
    ensures ResolveKeyToken(token) == (token, false)
  {
    KeyNameFixed(token);
  }

  // ---------------------------------------------------------------------
  // Keyboard maps

  /** `Object.entries(value)` for a truthy value: an object's entries, the
      indexed elements of an array or characters of a string, and nothing
      for a number or a boolean. */
  function JsEntries(v: Json): seq<(string, Json)> {
    match v
    case JObj(es) => es
    case JArr(items) => seq(|items|, i requires 0 <= i < |items| => (NatToString(i), items[i]))
    case JStr(s) => seq(|s|, i requires 0 <= i < |s| => (NatToString(i), JStr([s[i]])))
    case _ => []
  }

  /** The list a mapping value stands for (`Array.isArray(v) ? v : [v]`). */
  function ValueList(v: Json): seq<Json> {
    if v.JArr? then v.items else [v]
  }

  /** `String(entry || "").trim().toLowerCase()`: the token
      `normalizeMapping` makes of one list entry. */
  function MappingToken(entry: Json): string {
    Lower(JsTrim(JsString(Some(entry), "")))
  }

  /** The non-empty tokens `tok` makes of a list, in order, duplicates kept.
      The source's `tok` is `MappingToken`; the map functions take it as a
      parameter so that their proofs need not look inside it. */
  function MappingTokens(list: seq<Json>, tok: Json -> string): (r: seq<string>)
    ensures forall i | 0 <= i < |r| :: r[i] != ""
    ensures |r| <= |list|
  {
    if |list| == 0 then []
    else
      var t := tok(list[0]);
      (if t != "" then [t] else []) + MappingTokens(list[1..], tok)
  }

  /** `normalizeMapping`: each entry with at least one token is stored, one
      token as a string and several as a list; later entries overwrite
      earlier ones. */
  function NormalizeMapping(entries: seq<(string, Json)>, tok: Json -> string): (r: KeyboardMap)
    ensures forall k | k in r :: exists i | 0 <= i < |entries| :: entries[i].0 == k
  {
    if |entries| == 0 then map[]
    else
      var m := NormalizeMapping(entries[..|entries| - 1], tok);
      var (name, value) := entries[|entries| - 1];
      var ts := MappingTokens(ValueList(value), tok);
      if |ts| > 0 then m[name := Binding(ts)] else m
  }

  /** For an object with distinct keys (as `JSON.parse` builds them), an
      entry is stored exactly when it has a token, as a string for one
      token and as the whole list, repeats included, for several. */
  lemma {:induction false} NormalizeMappingSpec(entries: seq<(string, Json)>, tok: Json -> string)
    requires forall i, j | 0 <= i < j < |entries| :: entries[i].0 != entries[j].0
    ensures forall i | 0 <= i < |entries| ::
      var ts := MappingTokens(ValueList(entries[i].1), tok);
      && (entries[i].0 in NormalizeMapping(entries, tok) <==> |ts| > 0)
      && (|ts| > 0 ==> NormalizeMapping(entries, tok)[entries[i].0] == Binding(ts))
  {
    if |entries| > 0 {
      var init := entries[..|entries| - 1];
      var m := NormalizeMapping(init, tok);
      var (name, value) := entries[|entries| - 1];
      var ts := MappingTokens(ValueList(value), tok);
      var r := NormalizeMapping(entries, tok);
      assert r == if |ts| > 0 then m[name := Binding(ts)] else m;
      NormalizeMappingSpec(init, tok);
      forall i | 0 <= i < |entries|
        ensures var us := MappingTokens(ValueList(entries[i].1), tok);
          && (entries[i].0 in r <==> |us| > 0)
          && (|us| > 0 ==> r[entries[i].0] == Binding(us))
      {
        if i < |init| {
          assert init[i] == entries[i];
          assert entries[i].0 != name;
        }
      }
    }
  }

  /** A list that names the same key twice is stored as it is. */
  lemma {:induction false} MappingKeepsRepeats()
    ensures NormalizeMapping([("a", JArr([JStr("x"), JStr("x")]))], MappingToken) == map["a" := KeyList(["x", "x"])]
  {
    var list := [JStr("x"), JStr("x")];
    RepeatedTokens(list);
    var e := [("a", JArr(list))];
    assert e[..0] == [];
  }

  lemma {:induction false} RepeatedTokens(list: seq<Json>)
    requires list == [JStr("x"), JStr("x")]
    ensures MappingTokens(list, MappingToken) == ["x", "x"]
  {
    TokenMappingFixed("x");
    assert list[1..] == [JStr("x")];
    assert list[1..][1..] == [];
  }

  /** A token `tok` gives back unchanged. */
  predicate Kept(tok: Json -> string, t: string) {
    t != "" && tok(JStr(t)) == t
  }

  /** A binding `normalizeMapping` leaves as it is. */
  predicate NormalBinding(b: KeyBinding, tok: Json -> string) {
    match b
    case SingleKey(t) => Kept(tok, t)
    case KeyList(ts) => |ts| > 1 && forall i | 0 <= i < |ts| :: Kept(tok, ts[i])
  }


  function Strings(ts: seq<string>): (r: seq<Json>)
    ensures |r| == |ts| && forall i | 0 <= i < |ts| :: r[i] == JStr(ts[i])
  {
    if |ts| == 0 then [] else [JStr(ts[0])] + Strings(ts[1..])
  }

  /** `normalizeMapping` applied to a map already held as an object (the
      fallback map): every binding normalised on its own. */
  function NormalizeBindings(m: KeyboardMap, tok: Json -> string): (r: KeyboardMap)
    ensures forall k | k in r :: k in m
  {
    map k | k in m && |MappingTokens(Strings(BindingTokens(m[k])), tok)| > 0 ::
      Binding(MappingTokens(Strings(BindingTokens(m[k])), tok))
  }

  lemma {:induction false} MappingTokensFixed(ts: seq<string>, tok: Json -> string)
    requires forall i | 0 <= i < |ts| :: Kept(tok, ts[i])
    ensures MappingTokens(Strings(ts), tok) == ts
  {
    if |ts| > 0 {
      assert Strings(ts)[1..] == Strings(ts[1..]);
      MappingTokensFixed(ts[1..], tok);
    }
  }

  /** Normalising a map of normal bindings again gives it back. */
  lemma {:induction false} NormalizeBindingsFixed(m: KeyboardMap, tok: Json -> string)
    requires forall k | k in m :: NormalBinding(m[k], tok)
    ensures NormalizeBindings(m, tok) == m
  {
    forall k | k in m
      ensures MappingTokens(Strings(BindingTokens(m[k])), tok) == BindingTokens(m[k])
    {
      MappingTokensFixed(BindingTokens(m[k]), tok);
    }
  }

  /** A catalog token is its own mapping token. */
  lemma {:induction false} TokenMappingFixed(t: string)
    requires IsToken(t)
    ensures MappingToken(JStr(t)) == t
  {
    forall j | 0 <= j < |t| ensures !IsJsSpace(t[j]) && !IsUpper(t[j]) {
      IdCharPlain(t[j]);
    }
    TrimFixed(t, IsJsSpace);
    LowerFixed(t);
  }

  /** A sanitised catalog binding is a normal binding for any token
      function that keeps catalog tokens (as `MappingToken` does). */
  lemma {:induction false} SanitizedBindingNormal(b: KeyBinding, tok: Json -> string)
    requires SanitizedBinding(b)
    requires forall t | IsToken(t) :: Kept(tok, t)
    ensures NormalBinding(b, tok)
  {
  }

  /** `MappingToken` keeps every catalog token. */
  lemma {:induction false} MappingTokenKeepsTokens()
    ensures forall t | IsToken(t) :: Kept(MappingToken, t)
  {
    forall t | IsToken(t) ensures Kept(MappingToken, t) {
      TokenMappingFixed(t);
    }
  }

  // ---------------------------------------------------------------------
  // The active profile

  /** The profile the bridge holds. A catalog profile as `getGameProfile`
      returns it has a `keyboardMap` and no `mapping`; the one
      `setActiveProfile` builds has a `mapping` only. */
  datatype ActiveProfile = ActiveProfile(
    id: Json,
    name: Json,
    keyboardMap: Option<KeyboardMap>,
    mapping: Option<KeyboardMap>)

  function FromCatalog(p: GameProfile): ActiveProfile {
    ActiveProfile(JStr(p.id), JStr(p.name), Some(p.keyboardMap), None)
  }

  /** The literal the bridge starts from when the catalog has no profile. */
  const DefaultProfile: ActiveProfile :=
    ActiveProfile(JStr("platformer"), JStr("Platformer"), None, Some(map[]))

  /** `payload?.[key]`: a property of a present object. */
  function Prop(payload: Option<Json>, key: string): Option<Json> {
    if payload.Some? then Get(payload.value, key) else None
  }

  /** `a || b`. */
  function Or(a: Option<Json>, b: Option<Json>): (r: Option<Json>)
    ensures JsTruthy(a) ==> r == a
    ensures !JsTruthy(a) ==> r == b
  {
    if JsTruthy(a) then a else b
  }

  /** `getGameProfile(profileId || "platformer") || activeProfile`. */
  function FallbackProfile(active: ActiveProfile, c: Catalogs.Catalog, profileId: Option<Json>): ActiveProfile {
    match Catalogs.GetGameProfile(c, JsString(profileId, "platformer"))
    case Some(p) => FromCatalog(p)
    case None => active
  }

  /** `fallbackProfile.keyboardMap || fallbackProfile.mapping || {}`. */
  function FallbackMap(p: ActiveProfile): KeyboardMap {
    if p.keyboardMap.Some? then p.keyboardMap.value
    else if p.mapping.Some? then p.mapping.value
    else map[]
  }

  /** The map a profile payload carries: `keyboardMap`, else `mapping`. */
  function PayloadMap(payload: Option<Json>): Option<Json> {
    Or(Prop(payload, "keyboardMap"), Prop(payload, "mapping"))
  }

  /** `setActiveProfile` as written: `payloadMap` defaults to `{}`, which
      is truthy, so the fallback map is never read. */
  function SetActiveProfileAsWritten(active: ActiveProfile, c: Catalogs.Catalog, profileId: Option<Json>, payload: Option<Json>): (r: ActiveProfile)
    ensures r.keyboardMap.None? && r.mapping.Some?
  {
    var fallback := FallbackProfile(active, c, profileId);
    var payloadMap := Or(PayloadMap(payload), Some(JObj([])));
    ActiveProfile(
      Or(Prop(payload, "id"), Some(fallback.id)).value,
      Or(Prop(payload, "name"), Some(fallback.name)).value,
      None,
      Some(NormalizeMapping(JsEntries(payloadMap.value), MappingToken)))
  }

  /** `setActiveProfile` with the fallback map in use: a payload without a
      map takes the fallback profile's map. */
  function SetActiveProfile(active: ActiveProfile, c: Catalogs.Catalog, profileId: Option<Json>, payload: Option<Json>): (r: ActiveProfile)
    ensures r.keyboardMap.None? && r.mapping.Some?
    ensures JsTruthy(PayloadMap(payload)) ==> r == SetActiveProfileAsWritten(active, c, profileId, payload)
  {
    var fallback := FallbackProfile(active, c, profileId);
    var payloadMap := PayloadMap(payload);
    var mapping :=
      if JsTruthy(payloadMap) then NormalizeMapping(JsEntries(payloadMap.value), MappingToken)
      else NormalizeBindings(FallbackMap(fallback), MappingToken);
    ActiveProfile(
      Or(Prop(payload, "id"), Some(fallback.id)).value,
      Or(Prop(payload, "name"), Some(fallback.name)).value,
      None,
      Some(mapping))
  }

  /** As written, a payload without a map leaves the bridge with no key
      bindings at all, whatever the profile it falls back to. */
  lemma {:induction false} FallbackMapIgnored(active: ActiveProfile, c: Catalogs.Catalog, profileId: Option<Json>, payload: Option<Json>)
    requires !JsTruthy(PayloadMap(payload))
    ensures SetActiveProfileAsWritten(active, c, profileId, payload).mapping == Some(map[])
  {
  }

  /** Without a payload map, a sanitised catalog's profile lends its keyboard
      map unchanged. */
  lemma {:induction false} SetActiveProfileFallback(active: ActiveProfile, c: Catalogs.Catalog, profileId: Option<Json>, payload: Option<Json>)
    requires Catalogs.ValidCatalog(c)
    requires !JsTruthy(PayloadMap(payload))
    ensures var p := Catalogs.GetGameProfile(c, JsString(profileId, "platformer"));
      p.Some? && SetActiveProfile(active, c, profileId, payload).mapping == Some(p.value.keyboardMap)
  {
    var p := Catalogs.GetGameProfile(c, JsString(profileId, "platformer")).value;
    var i :| 0 <= i < |c.gameProfiles| && c.gameProfiles[i] == p;
    assert SanitizedProfile(c.gameProfiles[i]);
    MappingTokenKeepsTokens();
    forall k | k in p.keyboardMap ensures NormalBinding(p.keyboardMap[k], MappingToken) {
      SanitizedBindingNormal(p.keyboardMap[k], MappingToken);
    }
    NormalizeBindingsFixed(p.keyboardMap, MappingToken);
  }

  // ---------------------------------------------------------------------
  // Desired keys

  /** The resolved tokens of a binding's list that name a key. */
  function ResolvedKeys(tokens: seq<string>, hasKey: string -> bool): (r: seq<string>)
    ensures forall t | t in r :: t != "" && hasKey(t)
    ensures forall t :: t in r <==>
      exists j | 0 <= j < |tokens| :: KeyName(tokens[j]) == t && t != "" && hasKey(t)
  {
    if |tokens| == 0 then []
    else
      var n := KeyName(tokens[0]);
      var rest := ResolvedKeys(tokens[1..], hasKey);
      assert forall j | 1 <= j < |tokens| :: tokens[j] == tokens[1..][j - 1];
      (if n != "" && hasKey(n) then [n] else []) + rest
  }

  /** The keys one button asks for: nothing when the map has no own entry
      for it. (An inherited entry yields a function, whose text resolves to
      no key.) */
  function ButtonKeys(m: KeyboardMap, name: string, hasKey: string -> bool): seq<string> {
    if name in m then ResolvedKeys(BindingTokens(m[name]), hasKey) else []
  }

  /** The loop of `desiredTokensFromPayload` over the buttons: the keys of
      every pressed button in order, duplicates kept; `None` when a pressed
      button meets a profile without `mapping`, where the source throws. */
  function Requested(buttons: seq<(string, Json)>, mapping: Option<KeyboardMap>, hasKey: string -> bool): (r: Option<seq<string>>)
    ensures r.None? <==> mapping.None? && exists i | 0 <= i < |buttons| :: JsTruthy(Some(buttons[i].1))
    ensures r.Some? ==> forall t | t in r.value :: t != "" && hasKey(t)
    ensures r.Some? && mapping.Some? ==> forall t :: t in r.value <==>
      exists i | 0 <= i < |buttons| :: JsTruthy(Some(buttons[i].1)) && t in ButtonKeys(mapping.value, buttons[i].0, hasKey)
  {
    if |buttons| == 0 then Some([])
    else
      var rest := Requested(buttons[1..], mapping, hasKey);
      assert forall i | 1 <= i < |buttons| :: buttons[i] == buttons[1..][i - 1];
      if !JsTruthy(Some(buttons[0].1)) then rest
      else if mapping.None? then None
      else
        var here := ButtonKeys(mapping.value, buttons[0].0, hasKey);
        if rest.None? then None else Some(here + rest.value)
  }

  /** `payload.buttons || {}`. */
  function Buttons(payload: Json): Json {
    Or(Get(payload, "buttons"), Some(JObj([]))).value
  }

  /** `desiredTokensFromPayload`: the keys the pressed buttons ask for, each
      once, in first-seen order (a `Set`). */
  function Desired(payload: Json, mapping: Option<KeyboardMap>, hasKey: string -> bool): (r: Option<seq<string>>)
    ensures r.Some? ==> Distinct(r.value)
  {
    match Requested(JsEntries(Buttons(payload)), mapping, hasKey)
    case None => None
    case Some(ts) =>
      FirstOccurrencesDistinct(ts);
      Some(FirstOccurrences(ts))
  }

  /** The desired set holds exactly the keys some pressed, mapped button
      asks for, each naming a key of `KEY_TOKEN_MAP`. */
  lemma {:induction false} DesiredSpec(payload: Json, m: KeyboardMap)
    ensures var r := Desired(payload, Some(m), HasKey);
      && r.Some?
      && (forall t | t in r.value :: HasKey(t))
      && (forall t :: t in r.value <==>
            exists i | 0 <= i < |JsEntries(Buttons(payload))| ::
              JsTruthy(Some(JsEntries(Buttons(payload))[i].1)) && t in ButtonKeys(m, JsEntries(Buttons(payload))[i].0, HasKey))
  {
    var ts := Requested(JsEntries(Buttons(payload)), Some(m), HasKey).value;
    FirstOccurrencesMembers(ts);
  }

  /** A pressed button of a profile that has no `mapping` yet (the catalog
      profile the bridge starts with) makes the sync fail. */
  lemma {:induction false} DesiredWithoutMapping(payload: Json, hasKey: string -> bool)
    ensures Desired(payload, None, hasKey).None? <==>
      exists i | 0 <= i < |JsEntries(Buttons(payload))| :: JsTruthy(Some(JsEntries(Buttons(payload))[i].1))
  {
  }

  /** A profile binding button `a` to the token `constructor`, and an input
      pressing `a`. */
  const ConstructorMap: KeyboardMap := map["a" := SingleKey("constructor")]
  const PressA: Json := JObj([("buttons", JObj([("a", JBool(true))]))])

  /** As written, `constructor` finds `Object` in `KEY_TOKEN_MAP`; with own
      keys only, it names no key. */
  lemma {:induction false} ConstructorResolves()
    ensures ResolveKeyTokenAsWritten("constructor") == ("constructor", true)
    ensures ResolveKeyToken("constructor") == ("constructor", false)
  {
    KeyNameFixed("constructor");
  }

  /** A single pressed button asks for exactly its own keys. */
  lemma {:induction false} RequestedOne(name: string, v: Json, m: KeyboardMap, hasKey: string -> bool)
    requires JsTruthy(Some(v))
    ensures Requested([(name, v)], Some(m), hasKey) == Some(ButtonKeys(m, name, hasKey))
  {
    assert [(name, v)][1..] == [];
    assert ButtonKeys(m, name, hasKey) + [] == ButtonKeys(m, name, hasKey);
  }

  /** Button `a` of `ConstructorMap` asks for `constructor` as written, and
      for nothing with own keys only. */
  lemma {:induction false} ConstructorKeys()
    ensures ButtonKeys(ConstructorMap, "a", HasKeyAsWritten) == ["constructor"]
    ensures ButtonKeys(ConstructorMap, "a", HasKey) == []
  {
    ConstructorResolves();
    assert ["constructor"][1..] == [];
  }

  /** As written, pressing `a` bound to `constructor` asks for the key
      `constructor`; with own keys only, it asks for nothing. */
  lemma {:induction false} ConstructorCounterexample()
    ensures Desired(PressA, Some(ConstructorMap), HasKeyAsWritten) == Some(["constructor"])
    ensures Desired(PressA, Some(ConstructorMap), HasKey) == Some([])
  {
    assert JsEntries(Buttons(PressA)) == [("a", JBool(true))];
    ConstructorKeys();
    RequestedOne("a", JBool(true), ConstructorMap, HasKeyAsWritten);
    RequestedOne("a", JBool(true), ConstructorMap, HasKey);
    assert FirstOccurrences(["constructor"]) == ["constructor"] by {
      assert ["constructor"][..0] == [];
    }
  }


  // ---------------------------------------------------------------------
  // Key sync

  datatype KeyEvent = KeyDown(token: string) | KeyUp(token: string)

  /** The entries of `xs` that are (`keep`) or are not in `ys`, in order. */
  function Select(xs: seq<string>, ys: seq<string>, keep: bool): (r: seq<string>)
    ensures forall t :: t in r <==> t in xs && ((t in ys) == keep)
  {
    if |xs| == 0 then []
    else
      var rest := Select(xs[1..], ys, keep);
      assert forall i | 1 <= i < |xs| :: xs[i] == xs[1..][i - 1];
      (if (xs[0] in ys) == keep then [xs[0]] else []) + rest
  }

  lemma {:induction false} SelectDistinct(xs: seq<string>, ys: seq<string>, keep: bool)
    requires Distinct(xs)
    ensures Distinct(Select(xs, ys, keep))
  {
    if |xs| > 0 {
      assert Distinct(xs[1..]) by {
        forall i, j | 0 <= i < j < |xs[1..]| ensures xs[1..][i] != xs[1..][j] {
          assert xs[1..][i] == xs[i + 1] && xs[1..][j] == xs[j + 1];
        }
      }
      SelectDistinct(xs[1..], ys, keep);
      assert xs[0] !in xs[1..] by {
        forall i | 0 <= i < |xs[1..]| ensures xs[1..][i] != xs[0] {
          assert xs[1..][i] == xs[i + 1];
        }
      }
      var head := if (xs[0] in ys) == keep then [xs[0]] else [];
      DistinctConcat(head, Select(xs[1..], ys, keep));
    }
  }

  /** `releaseToken` / `pressToken` over a list: an event for each token
      that resolves to a key, in order. */
  function Events(ts: seq<string>, down: bool): (r: seq<KeyEvent>)
    ensures forall i | 0 <= i < |r| :: r[i].KeyDown? == down
    ensures forall t :: (if down then KeyDown(t) else KeyUp(t)) in r <==> t in ts && HasKey(t)
  {
    if |ts| == 0 then []
    else
      var rest := Events(ts[1..], down);
      assert forall i | 1 <= i < |ts| :: ts[i] == ts[1..][i - 1];
      (if HasKey(ts[0]) then [if down then KeyDown(ts[0]) else KeyUp(ts[0])] else []) + rest
  }

  /** No key goes up after a key went down. */
  predicate ReleasesFirst(es: seq<KeyEvent>) {
    forall i, j | 0 <= i < j < |es| :: !(es[i].KeyDown? && es[j].KeyUp?)
  }

  /** One `queueKeySync` step: release each pressed token no longer
      desired, then press each desired token not yet pressed. The pressed
      set keeps its insertion order: survivors first, newcomers after. */
  function KeySync(pressed: seq<string>, desired: seq<string>): (r: (seq<string>, seq<KeyEvent>))
    ensures forall t :: t in r.0 <==> t in desired
    ensures ReleasesFirst(r.1)
    ensures forall t :: KeyUp(t) in r.1 <==> t in pressed && t !in desired && HasKey(t)
    ensures forall t :: KeyDown(t) in r.1 <==> t in desired && t !in pressed && HasKey(t)
  {
    var ups := Events(Select(pressed, desired, false), false);
    var downs := Events(Select(desired, pressed, false), true);
    assert forall t :: KeyUp(t) in ups + downs <==> KeyUp(t) in ups;
    assert forall t :: KeyDown(t) in ups + downs <==> KeyDown(t) in downs;
    (Select(pressed, desired, true) + Select(desired, pressed, false), ups + downs)
  }

  /** The synced pressed list has no repeats. */
  lemma {:induction false} KeySyncDistinct(pressed: seq<string>, desired: seq<string>)
    requires Distinct(pressed) && Distinct(desired)
    ensures Distinct(KeySync(pressed, desired).0)
  {
    SelectDistinct(pressed, desired, true);
    SelectDistinct(desired, pressed, false);
    DistinctConcat(Select(pressed, desired, true), Select(desired, pressed, false));
  }

  /** Nothing is selected when no entry qualifies. */
  lemma {:induction false} SelectNone(xs: seq<string>, ys: seq<string>, keep: bool)
    requires forall i | 0 <= i < |xs| :: (xs[i] in ys) != keep
    ensures Select(xs, ys, keep) == []
  {
    if |xs| > 0 {
      SelectNone(xs[1..], ys, keep);
    }
  }

  /** Syncing to what is already pressed does nothing. */
  lemma {:induction false} KeySyncStable(pressed: seq<string>, desired: seq<string>)
    ensures var (next, _) := KeySync(pressed, desired);
      KeySync(next, desired).1 == []
  {
    var (next, _) := KeySync(pressed, desired);
    SelectNone(next, desired, false);
    SelectNone(desired, next, false);
  }

  // ---------------------------------------------------------------------
  // The bridge

  datatype Bridge = Bridge(code: string, locked: bool, active: ActiveProfile, pressed: seq<string>)

  /** The state after a handler: the bridge, the key events it sent, and
      the status `process.exit` was called with, if any. */
  datatype Outcome = Outcome(bridge: Bridge, keys: seq<KeyEvent>, exit: Option<int>)

  /** The bridge's invariant: it runs for a non-empty normal code, and it
      holds pressed only keys of the map, each once. */
  predicate Valid(b: Bridge) {
    && b.code != "" && Relay.IsNormalCode(b.code)
    && Distinct(b.pressed)
    && forall t | t in b.pressed :: HasKey(t)
  }

  /** Start-up: the code is normalised as `parseArgs` does; `--help` exits
      0 and a missing code exits 1. The profile is the catalog's for
      `--profile` (or "platformer"), and a given `--profile` locks it. */
  function Start(code: string, profile: string, help: bool, c: Catalogs.Catalog): (r: Result<Bridge, int>)
    ensures r.Failure? <==> help || Relay.NormalizeCode(code) == ""
    ensures r.Failure? ==> r.error == (if help then 0 else 1)
    ensures r.Success? ==> Valid(r.value) && r.value.pressed == [] && r.value.locked == (profile != "")
    ensures r.Success? && Catalogs.ValidCatalog(c) ==>
      r.value.active.id == JStr(Catalogs.ResolveGameProfileId(c, if profile == "" then "platformer" else profile))
  {
    var normal := Relay.NormalizeCode(code);
    if help || normal == "" then Failure(if help then 0 else 1)
    else
      var active :=
        match Catalogs.GetGameProfile(c, if profile == "" then "platformer" else profile)
        case Some(p) => FromCatalog(p)
        case None => DefaultProfile;
      Success(Bridge(normal, profile != "", active, []))
  }

  /** The code the bridge runs with is the relay's normal form of its
      argument: trimmed, upper-cased, only `A-Z0-9`, at most six. */
  lemma {:induction false} StartCode(code: string, profile: string, help: bool, c: Catalogs.Catalog)
    requires Start(code, profile, help, c).Success?
    ensures Start(code, profile, help, c).value.code ==
      Take(Keep(Upper(JsTrim(code)), Relay.IsCodeChar), Relay.CodeLength)
  {
    Relay.NormalizeCodePipeline(code);
  }

  /** `res?.config?.gameProfileId`. */
  function ConfigProfileId(res: Option<Json>): Option<Json> {
    Prop(Prop(res, "config"), "gameProfileId")
  }

  /** The join acknowledgement as written: a locked bridge still hands the
      session's profile to `setActiveProfile`, which takes its id and map. */
  function OnJoinAckAsWritten(b: Bridge, c: Catalogs.Catalog, res: Option<Json>): (r: Outcome)
    ensures r.exit.Some? <==> !JsTruthy(Prop(res, "ok"))
    ensures r.exit.Some? ==> r.exit == Some(1) && r.bridge == b
    ensures r.keys == [] && r.bridge.pressed == b.pressed && r.bridge.code == b.code && r.bridge.locked == b.locked
  {
    if !JsTruthy(Prop(res, "ok")) then Outcome(b, [], Some(1))
    else
      var gid := ConfigProfileId(res);
      var active :=
        if !b.locked && JsTruthy(gid) then SetActiveProfileAsWritten(b.active, c, gid, Prop(res, "profile"))
        else SetActiveProfileAsWritten(b.active, c, Some(b.active.id), Prop(res, "profile"));
      Outcome(b.(active := active), [], None)
  }

  /** The join acknowledgement: a failed join exits 1; otherwise an
      unlocked bridge takes the session's profile, and a locked one
      re-reads its own profile from the catalog. */
  function OnJoinAck(b: Bridge, c: Catalogs.Catalog, res: Option<Json>): (r: Outcome)
    ensures r.exit.Some? <==> !JsTruthy(Prop(res, "ok"))
    ensures r.exit.Some? ==> r.exit == Some(1) && r.bridge == b
    ensures r.keys == [] && r.bridge.pressed == b.pressed && r.bridge.code == b.code && r.bridge.locked == b.locked
    ensures !b.locked ==> r == OnJoinAckAsWritten(b, c, res) || !JsTruthy(PayloadMap(Prop(res, "profile")))
  {
    if !JsTruthy(Prop(res, "ok")) then Outcome(b, [], Some(1))
    else
      var gid := ConfigProfileId(res);
      var active :=
        if b.locked then SetActiveProfile(b.active, c, Some(b.active.id), None)
        else if JsTruthy(gid) then SetActiveProfile(b.active, c, gid, Prop(res, "profile"))
        else SetActiveProfile(b.active, c, Some(b.active.id), Prop(res, "profile"));
      Outcome(b.(active := active), [], None)
  }

  /** As written, a bridge locked by `--profile` takes whatever profile id
      the session's acknowledgement carries. */
  lemma {:induction false} LockIgnoredAsWritten(b: Bridge, c: Catalogs.Catalog, res: Option<Json>)
    requires b.locked && JsTruthy(Prop(res, "ok"))
    requires JsTruthy(Prop(Prop(res, "profile"), "id"))
    ensures OnJoinAckAsWritten(b, c, res).bridge.active.id == Prop(Prop(res, "profile"), "id").value
  {
  }

  /** A bridge locked to "racing" joining a session that plays "platformer". */
  const LockedToRacing: Bridge := Bridge("ABC123", true, DefaultProfile.(id := JStr("racing")), [])
  const PlatformerAck: Json :=
    JObj([("ok", JBool(true)),
          ("config", JObj([("gameProfileId", JStr("platformer"))])),
          ("profile", JObj([("id", JStr("platformer")), ("keyboardMap", JObj([]))]))])

  lemma {:induction false} LockCounterexample(c: Catalogs.Catalog)
    ensures OnJoinAckAsWritten(LockedToRacing, c, Some(PlatformerAck)).bridge.active.id == JStr("platformer")
  {
    LockIgnoredAsWritten(LockedToRacing, c, Some(PlatformerAck));
  }

  /** With the lock honoured, a locked bridge whose profile is in a
      sanitised catalog keeps that profile and its keyboard map. */
  lemma {:induction false} JoinAckKeepsLock(b: Bridge, c: Catalogs.Catalog, res: Option<Json>, i: nat)
    requires b.locked && JsTruthy(Prop(res, "ok"))
    requires Catalogs.ValidCatalog(c) && i < |c.gameProfiles|
    requires b.active.id == JStr(c.gameProfiles[i].id)
    ensures OnJoinAck(b, c, res).bridge.active.id == JStr(c.gameProfiles[i].id)
    ensures OnJoinAck(b, c, res).bridge.active.mapping == Some(c.gameProfiles[i].keyboardMap)
  {
    CatalogIdFound(c, i);
    SetActiveProfileFallback(b.active, c, Some(b.active.id), None);
  }

  /** The id of a sanitised catalog's profile finds that very profile. */
  lemma {:induction false} CatalogIdFound(c: Catalogs.Catalog, i: nat)
    requires Catalogs.ValidCatalog(c) && i < |c.gameProfiles|
    ensures JsString(Some(JStr(c.gameProfiles[i].id)), "platformer") == c.gameProfiles[i].id
    ensures Catalogs.GetGameProfile(c, c.gameProfiles[i].id) == Some(c.gameProfiles[i])
  {
    var id := c.gameProfiles[i].id;
    assert SanitizedProfile(c.gameProfiles[i]);
    NormalizeIdFixed(id);
    assert Catalogs.ProfileIds(c)[i] == id;
    assert Catalogs.ResolveGameProfileId(c, id) == id;
    var p := Catalogs.GetGameProfile(c, id).value;
    var k :| 0 <= k < |c.gameProfiles| && c.gameProfiles[k] == p;
    assert Catalogs.ProfileIds(c)[k] == id;
    assert k == i;
  }

  /** An unlocked bridge takes the session's profile and its map. */
  lemma {:induction false} JoinAckFollowsSession(b: Bridge, c: Catalogs.Catalog, res: Option<Json>)
    requires !b.locked && JsTruthy(Prop(res, "ok")) && JsTruthy(ConfigProfileId(res))
    requires JsTruthy(PayloadMap(Prop(res, "profile")))
    ensures OnJoinAck(b, c, res).bridge.active.mapping == Some(NormalizeMapping(JsEntries(PayloadMap(Prop(res, "profile")).value), MappingToken))
    ensures OnJoinAck(b, c, res) == OnJoinAckAsWritten(b, c, res)
  {
  }

  /** `session:config-updated`: ignored when the profile is locked or the
      config names no profile; a null event throws in the destructuring. */
  function OnConfigUpdated(b: Bridge, c: Catalogs.Catalog, ev: Option<Json>): (r: Outcome)
    ensures r.keys == [] && r.exit.None?
    ensures r.bridge.pressed == b.pressed && r.bridge.code == b.code && r.bridge.locked == b.locked
    ensures b.locked || !JsTruthy(ConfigProfileId(ev)) ==> r.bridge == b
  {
    if ev.None? || ev.value.JNull? || b.locked || !JsTruthy(ConfigProfileId(ev)) then Outcome(b, [], None)
    else Outcome(b.(active := SetActiveProfile(b.active, c, ConfigProfileId(ev), Prop(ev, "profile"))), [], None)
  }

  /** An unlocked bridge follows every update that names a profile: it
      takes the keys the update's profile carries, or, when the update
      carries none, the keyboard map of the named catalog profile. */
  lemma {:induction false} ConfigUpdateApplies(b: Bridge, c: Catalogs.Catalog, ev: Option<Json>)
    requires !b.locked && JsTruthy(ConfigProfileId(ev))
    ensures var payload := Prop(ev, "profile");
      var mapping := OnConfigUpdated(b, c, ev).bridge.active.mapping;
      && (JsTruthy(PayloadMap(payload)) ==>
            mapping == Some(NormalizeMapping(JsEntries(PayloadMap(payload).value), MappingToken)))
      && (Catalogs.ValidCatalog(c) && !JsTruthy(PayloadMap(payload)) ==>
            var p := Catalogs.GetGameProfile(c, JsString(ConfigProfileId(ev), "platformer"));
            p.Some? && mapping == Some(p.value.keyboardMap))
  {
    var payload := Prop(ev, "profile");
    if Catalogs.ValidCatalog(c) && !JsTruthy(PayloadMap(payload)) {
      SetActiveProfileFallback(b.active, c, ConfigProfileId(ev), payload);
    }
  }

  /** `session:input`: the keys are synced to the payload's buttons; a null
      event, or a sync that throws, changes nothing. */
  function OnInput(b: Bridge, ev: Option<Json>): (r: Outcome)
    ensures r.exit.None? && r.bridge.active == b.active && r.bridge.code == b.code && r.bridge.locked == b.locked
    ensures ReleasesFirst(r.keys)
  {
    if ev.None? || ev.value.JNull? then Outcome(b, [], None)
    else
      var payload := Or(Get(ev.value, "payload"), Some(JObj([]))).value;
      match Desired(payload, b.active.mapping, HasKey)
      case None => Outcome(b, [], None)
      case Some(desired) =>
        var (next, keys) := KeySync(b.pressed, desired);
        Outcome(b.(pressed := next), keys, None)
  }

  /** After an input the bridge holds exactly the keys the payload asks
      for: what it released was held and no longer wanted, what it pressed
      was wanted and not yet held. */
  lemma {:induction false} OnInputSyncs(b: Bridge, ev: Option<Json>, m: KeyboardMap)
    requires ev.Some? && !ev.value.JNull? && b.active.mapping == Some(m)
    ensures var payload := Or(Get(ev.value, "payload"), Some(JObj([]))).value;
      var desired := Desired(payload, Some(m), HasKey).value;
      var r := OnInput(b, ev);
      && (forall t :: t in r.bridge.pressed <==> t in desired)
      && (forall t :: KeyUp(t) in r.keys <==> t in b.pressed && t !in desired && HasKey(t))
      && (forall t :: KeyDown(t) in r.keys <==> t in desired && t !in b.pressed)
  {
    var payload := Or(Get(ev.value, "payload"), Some(JObj([]))).value;
    DesiredSpec(payload, m);
  }

  lemma {:induction false} OnInputValid(b: Bridge, ev: Option<Json>)
    requires Valid(b)
    ensures Valid(OnInput(b, ev).bridge)
  {
    if ev.Some? && !ev.value.JNull? {
      var payload := Or(Get(ev.value, "payload"), Some(JObj([]))).value;
      var d := Desired(payload, b.active.mapping, HasKey);
      if d.Some? {
        var ts := Requested(JsEntries(Buttons(payload)), b.active.mapping, HasKey).value;
        FirstOccurrencesMembers(ts);
        KeySyncDistinct(b.pressed, d.value);
      }
    }
  }

  /** `releaseAllPressedKeys`: every held token is released, in order. */
  function ReleaseAll(b: Bridge): (r: (Bridge, seq<KeyEvent>))
    ensures r.0 == b.(pressed := [])
    ensures forall t :: KeyUp(t) in r.1 <==> t in b.pressed && HasKey(t)
  {
    (b.(pressed := []), Events(b.pressed, false))
  }

  /** A valid bridge releases each key it holds exactly once. */
  lemma {:induction false} ReleaseAllEach(b: Bridge)
    requires Valid(b)
    ensures ReleaseAll(b).1 == seq(|b.pressed|, i requires 0 <= i < |b.pressed| => KeyUp(b.pressed[i]))
  {
    ReleaseAllEvents(b.pressed);
  }

  lemma {:induction false} ReleaseAllEvents(ts: seq<string>)
    requires forall t | t in ts :: HasKey(t)
    ensures Events(ts, false) == seq(|ts|, i requires 0 <= i < |ts| => KeyUp(ts[i]))
  {
    if |ts| > 0 {
      assert forall t | t in ts[1..] :: t in ts;
      ReleaseAllEvents(ts[1..]);
    }
  }

  /** `session:closed`: release everything, then exit 0. */
  function OnSessionClosed(b: Bridge): (r: Outcome)
    ensures r.bridge.pressed == [] && r.exit == Some(0)
  {
    var (next, keys) := ReleaseAll(b);
    Outcome(next, keys, Some(0))
  }

  /** `disconnect`: release everything and keep running. */
  function OnDisconnect(b: Bridge): (r: Outcome)
    ensures r.bridge.pressed == [] && r.exit.None?
  {
    var (next, keys) := ReleaseAll(b);
    Outcome(next, keys, None)
  }

  /** `shutdown` on SIGINT / SIGTERM. On a connected socket,
      `socket.disconnect()` fires the `disconnect` listener before it
      returns; that listener's `releaseAllPressedKeys` and the one `shutdown`
      starts next both copy the held tokens before either deletes one, so
      every held key is released twice, the two loops taking turns key by
      key. The process then exits with 0. */
  function Shutdown(b: Bridge, connected: bool): (r: Outcome)
    ensures r.bridge.pressed == [] && r.exit == Some(0)
    ensures !connected ==> r == OnSessionClosed(b)
  {
    var (next, keys) := ReleaseAll(b);
    Outcome(next, if connected then Twice(keys) else keys, Some(0))
  }

  /** Each element followed by a copy of itself. */
  function Twice<T>(s: seq<T>): (r: seq<T>)
    ensures multiset(r) == multiset(s) + multiset(s)
  {
    if |s| == 0 then [] else
      assert s == [s[0]] + s[1..];
      [s[0], s[0]] + Twice(s[1..])
  }

  /** On a valid bridge, a signal releases each held key twice when the
      socket is connected and once otherwise, and sends nothing else. */
  lemma {:induction false} ShutdownReleases(b: Bridge, connected: bool)
    requires Valid(b)
    ensures var keys := Shutdown(b, connected).keys;
      && (forall t | t in b.pressed :: multiset(keys)[KeyUp(t)] == if connected then 2 else 1)
      && (forall e | e in keys :: e.KeyUp? && e.token in b.pressed)
  {
    ReleaseAllEach(b);
    assert ReleaseAll(b).1 == Ups(b.pressed);
    ReleaseCounts(b.pressed, connected);
  }

  lemma {:induction false} ReleaseCounts(ts: seq<string>, twice: bool)
    requires Distinct(ts)
    ensures var keys := if twice then Twice(Ups(ts)) else Ups(ts);
      && (forall t | t in ts :: multiset(keys)[KeyUp(t)] == if twice then 2 else 1)
      && (forall e | e in keys :: e.KeyUp? && e.token in ts)
  {
    var once := Ups(ts);
    var keys: seq<KeyEvent> := if twice then Twice(once) else once;
    assert multiset(keys) == if twice then multiset(once) + multiset(once) else multiset(once);
    forall t | t in ts ensures multiset(once)[KeyUp(t)] == 1 {
      UpsCountFrom(ts, t);
    }
    forall e: KeyEvent | e in keys ensures e.KeyUp? && e.token in ts {
      assert e in multiset(keys);
      assert e in once;
    }
  }

  function Ups(ts: seq<string>): seq<KeyEvent> {
    seq(|ts|, i requires 0 <= i < |ts| => KeyUp(ts[i]))
  }

  /** In a list of distinct tokens, each is released exactly once. */
  lemma {:induction false} UpsCountFrom(ts: seq<string>, t: string)
    requires Distinct(ts) && t in ts
    ensures multiset(Ups(ts))[KeyUp(t)] == 1
  {
    assert Ups(ts) == [KeyUp(ts[0])] + Ups(ts[1..]);
    if ts[0] == t {
      assert KeyUp(t) !in Ups(ts[1..]);
    } else {
      assert t in ts[1..];
      assert Distinct(ts[1..]) by {
        forall i, j | 0 <= i < j < |ts[1..]| ensures ts[1..][i] != ts[1..][j] {
          assert ts[1..][i] == ts[i + 1] && ts[1..][j] == ts[j + 1];
        }
      }
      UpsCountFrom(ts[1..], t);
    }
  }

  lemma {:induction false} HandlersValid(b: Bridge, c: Catalogs.Catalog, ev: Option<Json>, connected: bool)
    requires Valid(b)
    ensures Valid(OnJoinAck(b, c, ev).bridge) && Valid(OnConfigUpdated(b, c, ev).bridge)
    ensures Valid(OnSessionClosed(b).bridge) && Valid(OnDisconnect(b).bridge) && Valid(Shutdown(b, connected).bridge)
  {
  }
}
