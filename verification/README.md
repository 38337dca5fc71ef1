# Air Controller, modelled in Dafny

Air Controller turns phones into game controllers for a desktop. This project models the
core logic of its components as pure Dafny functions over immutable state, and proves
properties of each:

- **Session relay** (`server.js`; the registry inside `createAirServer` in
  `desktop-app/src/server/appServer.js` is the same code, at lines 30-104 and 166-311).
  A host creates a session under a six-character code, controllers and bridges join it,
  and controller input goes to the host and to every bridge. Modules `Relay` and
  `RelayIsolation`. The socket.io transport becomes an outbox of deliveries. Rooms are
  kept as explicit per-socket sets. Clocks and the random code draws are parameters.
- **Profile and layout catalog** (`lib/profiles.js`): normalising ids, token lists,
  keyboard and virtual-pad maps and layouts; sanitising a catalog; resolving requested
  ids; creating, updating and deleting game profiles with their error codes. Modules
  `Profiles` and `Catalogs`. The catalog is a value passed in and returned.
- **Direct-connect host** (`desktop/src/main/hostServer.ts`, `desktop/src/shared/protocol.ts`,
  `desktop/src/main/vigemBridge.ts`): pairing by a six-digit code, the lowest free slot in
  1..4, input dispatch and layout changes, plus the ViGEm slot manager with its clamps and
  neutral resets. Modules `HostServer`, `Protocol`, `Vigem` and `Uri`.
- **Phone app, pure parts** (`LayoutDefinition.kt`, `ControllerViewModel.kt`,
  `ConnectionParams.kt`): layout decoding, the controller-id guard and the pairing deep
  link. Module `Android`.
- **Python virtual-gamepad bridge** (`desktop-app/src/bridge/virtual-gamepad-bridge.py`):
  deriving the action set from a payload and a profile, cancelling opposite d-pad
  directions, the press/release diff of the three pads, and the bridge's event handlers.
  Modules `VirtualBridge`, `Pads` and `BridgeRuntime`.
- **Keyboard bridge** (`bridge/keyboard-bridge.js`): key-token resolution, mapping
  normalisation, the desired key set and the key sync that keeps "pressed = desired".
  Module `KeyboardBridge`.
- **Legacy Python server** (`server/gamepad_manager.py`, `server/server.py`,
  `server/config.py`): a bounded gamepad registry whose indices are never reused,
  message dispatch and the heartbeat sweep. Modules `LegacyGamepads` and `LegacyServer`.

Shared building blocks: `Wrappers` (Option, Result), `Text` (ASCII character classes,
case mapping, trimming, decimal conversion) and `JsonValue` (decoded JSON with the
truthiness and number coercion of JavaScript and of Python written out).

Every relay citation below to `server.js` applies equally to `appServer.js`. The two
files hold the same text there, shifted by 7 lines for the helpers and by 46 lines for
the socket handlers.

## Model

| member | source | states |
|---|---|---|
| Relay.AlphabetExact | server.js:24 | a character is one `createSessionCode` can draw exactly when it is an upper-case letter other than I and O or a digit other than 0 and 1 |
| Relay.NormalizeCode | server.js:34-40 | a normalised code has at most six characters, each an upper-case letter or a digit |
| Relay.NormalizeCodePipeline | server.js:34-40 | the one-pass normaliser equals trimming, upper-casing, dropping everything but A-Z and 0-9, and keeping six characters |
| Relay.NormalizeCodeFixed | server.js:34-40 | a string is left unchanged by normalisation exactly when it is already a normal code |
| Relay.NormalizeCodeIdempotent | server.js:34-40 | normalising twice is normalising once |
| Relay.SessionCodeNormal | server.js:23-40 | a generated code survives normalisation unchanged, so a client typing it back reaches the session |
| Relay.DrawCode | server.js:23-29 | six draws below 32 give a six-character code over the alphabet |
| Relay.CreateSessionCode | server.js:23-32 | the code returned is well formed and not live, and is the first draw that is not live; there is none exactly when every draw hits a live code |
| Relay.InitialValid | server.js:21 | the empty registry satisfies the relay invariant |
| Relay.Connect | server.js:211 | a new socket starts with no role and no rooms and changes nothing else |
| Relay.ConnectValid | server.js:211 | a fresh connection keeps the relay invariant |
| Relay.CloseSession | server.js:75-89 | an unknown code changes nothing; a live one is removed, only it, after one `session:closed` with its code and reason is sent to its room |
| Relay.CloseSessionValid | server.js:75-89 | closing a session keeps the relay invariant |
| Relay.ClosePrevious | server.js:213-217 | the first step of session creation only ever removes sessions and leaves the sockets alone |
| Relay.ClosePreviousCloses | server.js:213-217 | only a host with a live session closes anything, exactly that session, telling its room with reason `host_new_session` |
| Relay.CreateSession | server.js:212-235 | a `null` payload throws after the previous session was closed and acknowledges nothing; otherwise the create is acknowledged, and no socket is added or removed |
| Relay.CreateSessionRegisters | server.js:219-234 | the new session has the creator as host, empty controller and bridge sets, the resolved config and the creation time; the creator becomes host and joins its room |
| Relay.CreateSessionValid | server.js:212-235 | session creation keeps the relay invariant |
| Relay.CreateSessionReplaces | server.js:212-234 | a host creating a second session closes the first with `host_new_session`; its old code survives only if drawn again for the new, empty session |
| Relay.UpdateConfig | server.js:237-253 | `SESSION_NOT_FOUND` exactly when the sender is not the host of a live session; then nothing changes and nothing is sent |
| Relay.UpdateConfigReplaces | server.js:245-252 | an accepted update replaces only that session's config and sends the new config to its room and in the ack |
| Relay.UpdateConfigValid | server.js:237-253 | a config update keeps the relay invariant |
| Relay.BridgeName | server.js:290 | the stored name is the JavaScript string of `name` (or `Bridge` when falsy), whole when it has at most 40 characters and cut to its first 40 otherwise |
| Relay.ControllerJoin | server.js:255-275 | an unknown code gives `SESSION_NOT_FOUND` and changes nothing; no session or socket is created or removed |
| Relay.ControllerJoinAdds | server.js:264-274 | a successful join adds the socket to exactly that session's controllers, makes it a controller in the session's room, and tells the host the new count |
| Relay.BridgeJoin | server.js:277-299 | an unknown code gives `SESSION_NOT_FOUND` and changes nothing; no session or socket is created or removed |
| Relay.BridgeJoinAdds | server.js:286-298 | a successful join adds the socket to exactly that session's bridges, records its name and tells the host the new count |
| Relay.ControllerJoinValid | server.js:255-275 | a controller join keeps the relay invariant |
| Relay.BridgeJoinValid | server.js:277-299 | a bridge join keeps the relay invariant |
| Relay.ControllerInput | server.js:301-319 | input is dropped unless the sender is a controller of a live session; otherwise it goes to the host and to every connected bridge of that session |
| Relay.InputForwarded | server.js:308-318 | every forwarded event carries the sender, the time and the payload unchanged |
| Relay.InputRecipients | server.js:301-319 | input reaches exactly the connected host and bridges of the sender's session, and nobody when dropped |
| Relay.Without | server.js:333-347 | a leaving controller or bridge only shrinks the session |
| Relay.Disconnect | server.js:321-357 | the socket is gone afterwards, no session is created, and no ack is sent |
| Relay.DisconnectUnknown | server.js:322-326 | a socket without a live session leaves every session as it was and sends nothing |
| Relay.DisconnectHost | server.js:328-331 | a host's disconnect removes its session and tells the rest of the room `host_disconnected` |
| Relay.DisconnectMember | server.js:333-357 | a leaving controller or bridge leaves its own set; the session is then deleted only if idle |
| Relay.DisconnectNotifies | server.js:333-348 | a leaving controller or bridge is reported to the host once, with the size of the set it left |
| Relay.DisconnectValid | server.js:321-357 | a disconnect keeps the relay invariant |
| Relay.Refreshed | server.js:55-62 | a refresh keeps exactly the live codes |
| Relay.RefreshOutboxCodes | server.js:51-53 | the refresh outbox announces exactly the given codes, each with its resolved config, to its room |
| Relay.RefreshSessions | server.js:55-73 | a refresh re-resolves every session's config and changes nothing else |
| Relay.RefreshAnnounces | server.js:55-73 | a session is re-announced exactly when its config changed, no profile id was given, or it uses the given profile |
| Relay.RefreshSettles | server.js:56-62 | against a valid catalog, re-resolving a refreshed config changes nothing |
| Relay.RefreshAgain | server.js:55-73 | after one refresh, a second re-announces only by the profile-id rule |
| Relay.RefreshValid | server.js:55-73 | a refresh keeps the relay invariant |
| Relay.Announced | server.js:64-71 | a code of the iteration order is re-announced exactly when its session should be, and only codes of that order are |
| RelayIsolation.InitialIsolated | server.js:21 | the empty registry is isolated |
| RelayIsolation.ConnectIsolated | server.js:211 | a fresh connection keeps isolation |
| RelayIsolation.StoredCodeNormal | server.js:91-97 | a socket's stored code is already normal, so `getSessionFromSocket` looks it up unchanged |
| RelayIsolation.Left | server.js:321-357 | a socket that left every session has well-formed data and is in no room |
| RelayIsolation.Detach | server.js:321-348 | detaching resets only this socket's data and creates no session |
| RelayIsolation.DetachKeepsOthers | server.js:321-348 | detaching changes only the socket's own session; every other session is kept as it was |
| RelayIsolation.MemberOnlyOfOwn | server.js:264-267 | under both invariants a socket belongs to no session but the one its data names |
| RelayIsolation.DetachIsolated | server.js:321-348 | after detaching, the socket belongs to no session and both invariants hold |
| RelayIsolation.SwitchToIsolated | server.js:255-299 | after a switch (`SwitchTo`) the socket belongs at most to the requested session, with the requested role |
| RelayIsolation.FixedCreateSession | server.js:212-235 | corrected creation: the host is detached first, then hosts only the new session |
| RelayIsolation.FixedCreateSessionIsolated | server.js:212-235 | corrected creation keeps both invariants |
| RelayIsolation.FixedControllerJoin | server.js:255-275 | corrected controller join: unknown codes change nothing; a known one detaches the socket from its old session before adding it |
| RelayIsolation.FixedBridgeJoin | server.js:277-299 | corrected bridge join: unknown codes change nothing; a known one detaches the socket from its old session before adding it |
| RelayIsolation.FixedControllerJoinIsolated | server.js:255-275 | the corrected controller join keeps both invariants |
| RelayIsolation.FixedBridgeJoinIsolated | server.js:277-299 | the corrected bridge join keeps both invariants |
| RelayIsolation.UpdateConfigIsolated | server.js:237-253 | a config update keeps isolation |
| RelayIsolation.DisconnectIsolated | server.js:321-357 | a disconnect keeps isolation |
| RelayIsolation.RefreshIsolated | server.js:55-73 | a refresh keeps isolation |
| RelayIsolation.InputStaysInSession | server.js:301-319 | input reaches only sockets that name the sender's session |
| RelayIsolation.ConfigStaysInSession | server.js:237-253 | a config update reaches only sockets that name the host's session |
| RelayIsolation.BridgeSwitchNotifiesOldHost | server.js:277-299 | with the correction, a bridge moving from A to B is reported to A's host once as gone, to B's host as arrived, and leaves A |
| RelayIsolation.ControllerSwitchNotifiesOldHost | server.js:255-275 | the same for a controller moving between sessions |
| RelayIsolation.SwitchSilencesOldSession | server.js:255-319 | after a corrected switch, neither input nor config updates from another session reach the switched socket |
| RelayIsolation.AsWrittenBridgeSwitch | server.js:277-299 | as written, a bridge moving from A to B stays a bridge of A, A's host is not told, and A's input still reaches it |
| RelayIsolation.AsWrittenControllerSwitch | server.js:255-275 | as written, a controller moving from A to B stays in A's room, so A's config updates still reach it |
| Profiles.NormalizeId | lib/profiles.js:122-128 | an id holds only `[a-z0-9_-]` and at most 42 characters |
| Profiles.NormalizeIdFixed | lib/profiles.js:122-128 | an id is left unchanged exactly when it is already lower-case `[a-z0-9_-]` of at most 42 characters |
| Profiles.NormalizeIdIdempotent | lib/profiles.js:122-128 | normalising an id twice is the same as once |
| Profiles.NormalizeText | lib/profiles.js:130-133 | an all-whitespace value gives the fallback; any other gives clean text that the value holds with only whitespace around it, and clean text comes back unchanged |
| Profiles.NormalizeTextClean | lib/profiles.js:130-133 | with a clean fallback the result is clean text, and clean text is kept as it is |
| Profiles.NormalizeToken | lib/profiles.js:135-147 | a token or action holds only `[a-z0-9_]` |
| Profiles.NormalizeTokenFixed | lib/profiles.js:135-147 | a string of `[a-z0-9_]` is its own token |
| Profiles.NormalizeList | lib/profiles.js:149-183 | the list is the normalised candidates, empty ones dropped and each kept at its first occurrence |
| Profiles.NormalizeListSpec | lib/profiles.js:149-183 | the list has no duplicates and no empty token, and holds exactly the non-empty normalised candidates |
| Profiles.NormalizeListFixed | lib/profiles.js:149-183 | a duplicate-free list of tokens normalises to itself, and so does a single token given bare |
| Profiles.CollectIsFirstOccurrences | lib/profiles.js:157-162 | the source's append-if-new loop computes the first-occurrence reference list |
| Profiles.SanitizeKeyboardMapSpec | lib/profiles.js:185-199 | only profile inputs are keys; an input is bound exactly when one of its raw entries normalises to a token, and its binding lists exactly those tokens without duplicates, bare for one and as a list for several |
| Profiles.SanitizeVirtualMapSpec | lib/profiles.js:201-213 | only profile inputs are keys; an input is present exactly when one of its raw entries normalises to an action, and its list holds exactly those actions without duplicates |
| Profiles.SanitizeOrderPermutation | lib/profiles.js:218-242 | the panel order and button grid come out as permutations of their canonical lists |
| Profiles.SanitizeLabelsSpec | lib/profiles.js:244-266 | the keys are exactly the group's; a missing or blank label takes the default, a clean one is kept as written, any other loses only its surrounding whitespace |
| Profiles.SanitizeLayoutOrders | lib/profiles.js:215-242 | a layout's panel order is a permutation of [stick, action] and its button grid one of [x, y, a, b] |
| Profiles.SanitizeGameProfileSanitized | lib/profiles.js:287-297 | a profile whose id survives has clean texts and normalised maps |
| Profiles.SanitizeLayoutSanitized | lib/profiles.js:215-285 | a layout whose id survives has clean texts, permuted orders and complete clean labels |
| Profiles.ResanitizeProfile | lib/profiles.js:287-297 | sanitising an already sanitised profile gives it back |
| Profiles.ResanitizeLayout | lib/profiles.js:215-285 | sanitising an already sanitised layout gives it back |
| Profiles.ResanitizeKeyboardMap | lib/profiles.js:185-199 | sanitising a sanitised keyboard map gives it back |
| Profiles.ResanitizeVirtualMap | lib/profiles.js:201-213 | sanitising a sanitised virtual-pad map gives it back |
| Catalogs.ProfileCandidates | lib/profiles.js:306-307 | one candidate per raw profile; a profile whose id is falsy takes the id `profile_<i+1>` of its position; a truthy id is normalised from its `String()` form, so an id such as `[]` gives the empty id and skips the fallback; every candidate with an id is fully sanitised |
| Catalogs.LayoutCandidates | lib/profiles.js:351-352 | one candidate per raw layout; a layout whose id is falsy takes `layout_<i+1>`; a truthy id is normalised from its `String()` form, so `[]` gives the empty id; every candidate with an id is fully sanitised |
| Catalogs.ArrayIdDropped | lib/profiles.js:288-309 | a profile whose id is `[]` skips the positional fallback and is dropped, so a catalog holding only it gets the built-in profile; the same profile without an id is kept as `profile_1` |
| Catalogs.PlatformerProfileSanitized | lib/profiles.js:318-345 | the built-in profile has id `platformer` and is sanitised |
| Catalogs.BalancedLayoutSanitized | lib/profiles.js:363-375 | the built-in layout has id `balanced` and is sanitised |
| Catalogs.KeepFirstByIdSpec | lib/profiles.js:306-316 | the kept entries' ids are the candidates' non-empty ids at their first occurrence: unique, non-empty, and covering every non-empty candidate id |
| Catalogs.KeepFirstByIdOrigin | lib/profiles.js:306-316 | every kept entry is the first candidate with its id |
| Catalogs.SanitizeProfilesKeeps | lib/profiles.js:303-346 | the built-in profile appears exactly when no raw profile keeps an id; otherwise the first profile for each id is kept, in order |
| Catalogs.SanitizeLayoutsKeeps | lib/profiles.js:348-376 | the same for layouts and the built-in layout |
| Catalogs.PickDefault | lib/profiles.js:378-389 | the default is the requested id when it names an entry, else the first entry's id |
| Catalogs.SanitizeCatalog | lib/profiles.js:299-390 | both lists are non-empty and each default is picked among its list's ids, from the `String()` form of the raw default id |
| Catalogs.ReadCatalog | lib/profiles.js:395-402 | the result is always a valid catalog; an unreadable file, a `null` file, or a `null` entry in either list (sanitising throws on its `.id`) gives exactly the built-in catalog, so one `null` entry discards every other entry; otherwise the file is sanitised |
| Catalogs.BuiltinCatalogContents | lib/profiles.js:317-390 | `sanitizeCatalog({})` holds only the `platformer` profile and the `balanced` layout, which are also its defaults |
| Catalogs.SanitizeCatalogValid | lib/profiles.js:299-390 | every sanitised catalog is valid: non-empty lists, unique sanitised entries, defaults that name entries |
| Catalogs.ResanitizeCatalog | lib/profiles.js:299-390 | sanitising a valid catalog gives it back |
| Catalogs.SanitizeCatalogIdempotent | lib/profiles.js:299-390 | sanitising twice is the same as once |
| Catalogs.DefaultIdNormal | lib/profiles.js:378-379 | a valid catalog's defaults are normalised ids |
| Catalogs.ResolveGameProfileId | lib/profiles.js:423-427 | the normalised id when a profile has it, else the default, so always a profile's id in a valid catalog |
| Catalogs.ResolveLayoutId | lib/profiles.js:429-433 | the normalised id when a layout has it, else the default, so always a layout's id in a valid catalog |
| Catalogs.ResolveSessionConfig | lib/profiles.js:435-440 | a resolved configuration names an existing profile and layout |
| Catalogs.ResolveMember | lib/profiles.js:435-440 | a configuration naming existing entries resolves to itself |
| Catalogs.ResolveSessionConfigIdempotent | lib/profiles.js:435-440 | resolving twice is the same as once |
| Catalogs.GetGameProfile | lib/profiles.js:442-446 | a valid catalog always yields the profile with the resolved id |
| Catalogs.GetLayout | lib/profiles.js:448-452 | a valid catalog always yields the layout with the resolved id |
| Catalogs.UpsertGameProfile | lib/profiles.js:490-517 | `INVALID_PROFILE_ID` exactly for an empty id, `PROFILE_EXISTS` exactly for creating a known id, `PROFILE_NOT_FOUND` exactly for updating an unknown one; success returns the sanitised profile |
| Catalogs.UpsertValid | lib/profiles.js:490-517 | a successful upsert leaves a valid catalog and returns a sanitised profile |
| Catalogs.UpsertCreateAppends | lib/profiles.js:508-512 | creating appends the profile and changes nothing else |
| Catalogs.UpsertUpdateReplaces | lib/profiles.js:508-512 | updating replaces the profile with that id in place and changes nothing else |
| Catalogs.UpsertIsStore | lib/profiles.js:508-514 | re-sanitising after the store changes nothing |
| Catalogs.StoreProfileReplaces | lib/profiles.js:508-509 | storing a known id replaces that entry only, keeping the order |
| Catalogs.DeleteGameProfile | lib/profiles.js:519-542 | `PROFILE_NOT_FOUND` exactly for an unknown id, `LAST_PROFILE` exactly when it is the only profile, and no other error |
| Catalogs.DeleteValid | lib/profiles.js:519-542 | a successful delete leaves a valid catalog |
| Catalogs.DeleteRemoves | lib/profiles.js:519-542 | the profile is removed and nothing else; the layouts are untouched; the default survives unless it was deleted, when it becomes the first remaining profile |
| Catalogs.KeepFirstByIdIds | lib/profiles.js:306-316 | the ids the de-duplicating loop keeps are exactly the first occurrences of the non-empty candidate ids, in order |
| Catalogs.SanitizeProfilesValid | lib/profiles.js:303-346 | the sanitised profile list has distinct ids and every profile in it is itself sanitised |
| Catalogs.SanitizeLayoutsValid | lib/profiles.js:348-376 | the sanitised layout list has distinct ids and every layout in it is itself sanitised |
| Profiles.SanitizeKeyboardMapSanitized | lib/profiles.js:185-200 | every key of a sanitised keyboard map is a profile input, bound either to one normalised token or to a list of more than one distinct normalised tokens |
| Profiles.SanitizeVirtualMapSanitized | lib/profiles.js:202-213 | every key of a sanitised virtual-pad map is a profile input, mapped to a non-empty list of distinct normalised actions |
| Profiles.ResanitizeOrder | lib/profiles.js:215-248 | re-ordering a `panelOrder` or `buttonGrid` that is already a permutation of the canonical one changes nothing |
| Android.FromUriReads | android/app/src/main/kotlin/com/aircontroller/network/ConnectionParams.kt:18-28 | on a hierarchical URI holding the three parameters, the result is their decoded values, with the port read as an integer or the whole link refused |
| Protocol.ReasonWireInjective | desktop/src/shared/protocol.ts:58-61 | the three reject reasons have three distinct wire names |
| Protocol.Encode | desktop/src/shared/protocol.ts:11-50 | every client message is an object whose first entry is its `type` tag |
| Protocol.Parse | desktop/src/shared/protocol.ts:122-130 | an accepted frame is handed on unchanged, tagged with its own string `type` |
| Protocol.ParseAccepts | desktop/src/shared/protocol.ts:122-130 | a frame is accepted exactly when it decodes to an object whose `type` is a string, whatever that string is |
| Protocol.ParseEncode | desktop/src/shared/protocol.ts:43-50 | every message a client can build parses back to its own tag and body |
| Vigem.ResetInputs | desktop/src/main/vigemBridge.ts:27 | a reset pad is neutral and otherwise unchanged |
| Vigem.AttachController | desktop/src/main/vigemBridge.ts:110-129 | without a client nothing is attached; an attached slot is reported ok as it is; otherwise ok exactly when the device connects, and only then is the slot added |
| Vigem.AttachFresh | desktop/src/main/vigemBridge.ts:118-128 | a freshly attached pad is connected, neutral and pushed exactly once |
| Vigem.DetachController | desktop/src/main/vigemBridge.ts:131-141 | the slot is removed in any case; an attached device is left reset, updated once more and disconnected |
| Vigem.Shutdown | desktop/src/main/vigemBridge.ts:167-171 | shutting down detaches exactly the listed slots, each reset, pushed once and disconnected, and keeps the rest |
| Vigem.ShutdownEmpties | desktop/src/main/vigemBridge.ts:167-171 | detaching every attached slot leaves none, and every device is released |
| Vigem.ClampField | desktop/src/main/vigemBridge.ts:226-228 | a clamped number lies within the bounds |
| Vigem.StickTouchesOneSide | desktop/src/main/vigemBridge.ts:179-187 | through `ApplyStick`, a stick message writes the two axes of one stick within [-1, 1] and leaves every other control alone |
| Vigem.ApplyButton | desktop/src/main/vigemBridge.ts:173-177 | as written, a button message throws exactly when the string form of its `button` field is an inherited property name |
| Vigem.ApplyInput | desktop/src/main/vigemBridge.ts:143-165 | as written, input to an attached slot throws exactly for a button message naming an inherited property |
| Vigem.AsWrittenInheritedButtonThrows | desktop/src/main/vigemBridge.ts:173-176 | `{"type": "button", "button": "toString"}` from a paired client throws |
| Vigem.FixedDpad | desktop/src/main/vigemBridge.ts:197-201 | the corrected dpad lookup gives offsets in [-1, 1] |
| Vigem.FixedApplyInput | desktop/src/main/vigemBridge.ts:143-165 | corrected input never throws; the four input kinds change only the addressed pad and push one update (`Update`); anything else, or an unattached slot, changes nothing |
| Vigem.FixedAgrees | desktop/src/main/vigemBridge.ts:143-201 | wherever the code as written does not meet an inherited name, the corrected input behaves the same |
| Vigem.ButtonSetsMapped | desktop/src/main/vigemBridge.ts:173-177 | a button message sets exactly the button its `button` field's string form maps to (so `["A"]` presses A) to whether its state is `"pressed"`; an unmapped name changes no button |
| Vigem.DpadWrites | desktop/src/main/vigemBridge.ts:197-224 | a dpad message writes the (h, v) pair its direction's string form maps to, and (0, 0) for `none` or an unknown direction |
| Vigem.TriggerClamped | desktop/src/main/vigemBridge.ts:189-195 | triggers land in [0, 1] |
| HostServer.GenerateCode | desktop/src/main/hostServer.ts:373-377 | the pairing code is six decimal digits whose value is the draw |
| HostServer.DeepLink | desktop/src/main/hostServer.ts:218-220 | the link starts with `aircontroller://connect?ip=`; `Android.DeepLinkRoundTrip` shows the phone reads back the address, port and code |
| HostServer.FindFrom | desktop/src/main/hostServer.ts:320-326 | the scan from slot k returns the first slot from k up to 4 that no paired client holds, or none when all are held |
| HostServer.FindOpenSlot | desktop/src/main/hostServer.ts:320-326 | the result is the smallest free slot in 1..4, and there is none exactly when all four are held |
| HostServer.Initial | desktop/src/main/hostServer.ts:36-44 | a fresh host has no clients and the `xbox` layout, and satisfies the host invariant |
| HostServer.Connect | desktop/src/main/hostServer.ts:64-77 | a new socket is tracked unpaired; every other client, the pads, the layout and the code are unchanged |
| HostServer.HandlePair | desktop/src/main/hostServer.ts:268-299 | pairing touches only the pairing client: the client set, layout and code stay the same |
| HostServer.HandleInput | desktop/src/main/hostServer.ts:302-318 | input never changes who is paired or which slot anyone holds, touches no other client, and keeps the set of attached slots |
| HostServer.OnMessage | desktop/src/main/hostServer.ts:247-266 | every frame, even one that does not parse, stamps the sender's `lastSeenAt`, and no client is added or removed |
| HostServer.OnClose | desktop/src/main/hostServer.ts:87-95 | the socket is forgotten; the layout, the code and the bridge's availability stay the same |
| HostServer.SetLayout | desktop/src/main/hostServer.ts:144-153 | only the layout changes |
| HostServer.PingReachesControllers | desktop/src/main/hostServer.ts:328-336 | in a valid host each tick pings exactly the clients holding a controller slot, so never more than four |
| HostServer.ConnectValid | desktop/src/main/hostServer.ts:64-77 | a new socket keeps the invariant: only paired clients hold slots, slots are in 1..4 and held once, only held slots have a pad |
| HostServer.HandlePairValid | desktop/src/main/hostServer.ts:268-299 | pairing keeps the invariant, so paired slots stay distinct and within 1..4 |
| HostServer.HandleInputValid | desktop/src/main/hostServer.ts:302-318 | input keeps the invariant |
| HostServer.OnMessageValid | desktop/src/main/hostServer.ts:247-266 | any frame keeps the invariant |
| HostServer.OnCloseValid | desktop/src/main/hostServer.ts:87-95 | closing a socket keeps the invariant |
| HostServer.SetLayoutValid | desktop/src/main/hostServer.ts:144-153 | a layout change keeps the invariant |
| HostServer.UnpairedMustPair | desktop/src/main/hostServer.ts:255-260 | an unpaired client whose frame is not `pair` gets `reject invalid_code`, is closed, and only its `lastSeenAt` changes |
| HostServer.WrongCodeRejected | desktop/src/main/hostServer.ts:274-279 | a wrong code gets `reject invalid_code` and a close, and only `lastSeenAt` changes |
| HostServer.FullRejected | desktop/src/main/hostServer.ts:281-287 | the right code with all four slots held gets `reject server_full` and a close, and the client stays unpaired |
| HostServer.PairWelcomes | desktop/src/main/hostServer.ts:289-299 | the right code with a free slot pairs the client on the lowest free slot, attaches that slot and sends `welcome` with it and the current layout |
| HostServer.NeverAlreadyConnected | desktop/src/main/hostServer.ts:255-272 | no frame ever produces `reject already_connected` |
| HostServer.RepairCounted | desktop/src/main/hostServer.ts:264-265 | a paired client's later `pair` frame is counted as input, answered with nothing, and leaves its slot and the pads alone |
| HostServer.PingPong | desktop/src/main/hostServer.ts:302-307 | `ping` is answered with `pong`, `pong` is ignored, and neither changes the host |
| HostServer.InputApplied | desktop/src/main/hostServer.ts:309-313 | any other frame is counted once and applied to the sender's slot only |
| HostServer.CloseFreesSlot | desktop/src/main/hostServer.ts:87-95 | closing a paired client leaves its slot unheld and without a pad, so `findOpenSlot` returns it or a lower slot |
| HostServer.SetLayoutNotifies | desktop/src/main/hostServer.ts:144-153 | the same layout sends nothing; a new one sends `layout_change` to exactly the paired clients |
| Uri.EncodeUriComponent | desktop/src/main/hostServer.ts:219 | the encoded address holds only `%` and unreserved characters |
| Uri.DecodeEncode | android/app/src/main/kotlin/com/aircontroller/network/ConnectionParams.kt:21 | reading an encoded ASCII address back gives the address |
| Uri.ToIntOrNull | android/app/src/main/kotlin/com/aircontroller/network/ConnectionParams.kt:22 | a port that parses fits in a signed 32-bit integer |
| Uri.ToIntNatToString | android/app/src/main/kotlin/com/aircontroller/network/ConnectionParams.kt:22 | the decimal numeral of a port below 2^31 parses back to that port |
| Android.FromWire | android/app/src/main/kotlin/com/aircontroller/controller/LayoutDefinition.kt:46-51 | every name maps to one of the three layouts |
| Android.FromWireIgnoresCase | android/app/src/main/kotlin/com/aircontroller/controller/LayoutDefinition.kt:46 | names that differ only in case give the same layout |
| Android.FromWireUnknown | android/app/src/main/kotlin/com/aircontroller/controller/LayoutDefinition.kt:50 | a name that is none of the three, in any case, gives `xbox` |
| Android.FromWireDesktop | android/app/src/main/kotlin/com/aircontroller/controller/LayoutDefinition.kt:46-51 | every layout name the desktop sends is read as that layout |
| Android.FromWireVisibility | android/app/src/main/kotlin/com/aircontroller/controller/LayoutDefinition.kt:10-44 | left stick, face buttons and D-pad are always shown; the right stick and triggers are shown exactly when the layout is not `simple` |
| Android.LayoutChangeKeepsId | android/app/src/main/kotlin/com/aircontroller/controller/ControllerViewModel.kt:15-18 | a layout change after a welcome keeps the welcomed id and takes the new layout |
| Android.IdStaysPositive | android/app/src/main/kotlin/com/aircontroller/controller/ControllerViewModel.kt:16 | once the id is set, it stays positive under `SetControllerInfo` |
| Android.WebSocketUrlReadsBack | android/app/src/main/kotlin/com/aircontroller/network/ConnectionParams.kt:11 | for a colon-free address and a non-negative port, the URL is `ws://`, the address up to the first colon, and text that parses back to the port |
| Android.FromUri | android/app/src/main/kotlin/com/aircontroller/network/ConnectionParams.kt:18-28 | parameters are found exactly when the URI is hierarchical and has `ip`, a `port` that parses as an integer, and `code`; they are those values |
| Android.DeepLinkRoundTrip | android/app/src/main/kotlin/com/aircontroller/network/ConnectionParams.kt:18-28 | the desktop's deep link is read back as its own address, port and code, for an ASCII address, a port below 2^31 and a code of digits |
| VirtualBridge.NormalizeSessionCode | desktop-app/src/bridge/virtual-gamepad-bridge.py:59-61 | the code is upper-case alphanumerics, at most six, as the relay normalises codes for ASCII input |
| VirtualBridge.SessionCodePipeline | desktop-app/src/bridge/virtual-gamepad-bridge.py:59-61 | the result is the upper-cased, stripped text with non-alphanumerics dropped, cut to six |
| VirtualBridge.SessionCodeIdempotent | desktop-app/src/bridge/virtual-gamepad-bridge.py:59-61 | normalising a code twice is the same as once |
| VirtualBridge.NormalizeAction | desktop-app/src/bridge/virtual-gamepad-bridge.py:73-74 | an action is no longer than its text and holds only lower-case alphanumerics and `_` |
| VirtualBridge.NormalizeActionPipeline | desktop-app/src/bridge/virtual-gamepad-bridge.py:73-74 | the result is the stripped, lower-cased text with everything but alphanumerics and `_` dropped |
| VirtualBridge.NormalizeActionFixed | desktop-app/src/bridge/virtual-gamepad-bridge.py:73-74 | a string is its own action exactly when it holds only lower-case alphanumerics and `_` |
| VirtualBridge.NormalizeEach | desktop-app/src/bridge/virtual-gamepad-bridge.py:78-79 | a list yields at most as many actions as entries, none empty |
| VirtualBridge.NormalizeEachMembers | desktop-app/src/bridge/virtual-gamepad-bridge.py:78-79 | an action is in the list exactly when it is non-empty and some entry normalises to it |
| VirtualBridge.NormalizeEachFixed | desktop-app/src/bridge/virtual-gamepad-bridge.py:78-79 | a list of actions that are already normal comes back unchanged |
| VirtualBridge.AsActionList | desktop-app/src/bridge/virtual-gamepad-bridge.py:77-81 | every action in the list is a non-empty token |
| VirtualBridge.VirtualEntriesKeys | desktop-app/src/bridge/virtual-gamepad-bridge.py:93-97 | a button key is present exactly when some entry's stripped name is that key |
| VirtualBridge.VirtualEntriesLast | desktop-app/src/bridge/virtual-gamepad-bridge.py:93-97 | a key holds the actions of the last entry with that name |
| VirtualBridge.NormalizeVirtualMap | desktop-app/src/bridge/virtual-gamepad-bridge.py:90-99 | a truthy non-dict fails (it has no `.items()`); a falsy value gives the empty map; for a dict a key is present exactly when some entry's stripped name is that non-empty key |
| VirtualBridge.PutValid | desktop-app/src/bridge/virtual-gamepad-bridge.py:109 | assigning a key keeps the dict well formed and only appends to its key order |
| VirtualBridge.AddProfileValid | desktop-app/src/bridge/virtual-gamepad-bridge.py:103-109 | one profile keeps the maps well formed and keeps the earlier key order |
| VirtualBridge.AddProfilesValid | desktop-app/src/bridge/virtual-gamepad-bridge.py:102-111 | building keeps the maps well formed and never reorders ids already present |
| VirtualBridge.AddProfilesKeys | desktop-app/src/bridge/virtual-gamepad-bridge.py:102-111 | an id is a key after building exactly when it was before or some dict profile has it |
| VirtualBridge.BuildProfileMapsValid | desktop-app/src/bridge/virtual-gamepad-bridge.py:102-111 | the profile maps built from a catalog are well formed |
| VirtualBridge.ResolveProfileId | desktop-app/src/bridge/virtual-gamepad-bridge.py:114-118 | a non-empty result names an available profile |
| VirtualBridge.ResolveProfileIdSpec | desktop-app/src/bridge/virtual-gamepad-bridge.py:114-118 | the result is the normalised request when it names a profile, else the default when that does, else the first profile; "" exactly when there is none |
| VirtualBridge.ResolveDpadActions | desktop-app/src/bridge/virtual-gamepad-bridge.py:121-147 | opposite directions never survive together, only d-pad actions are touched, and nothing is added |
| VirtualBridge.ResolveDpadSpec | desktop-app/src/bridge/virtual-gamepad-bridge.py:121-147 | each direction survives exactly when it is held and its opposite is not |
| VirtualBridge.ResolveDpadNoConflict | desktop-app/src/bridge/virtual-gamepad-bridge.py:121-147 | without a conflicting pair the set is unchanged |
| VirtualBridge.ResolveDpadIdempotent | desktop-app/src/bridge/virtual-gamepad-bridge.py:121-147 | resolving twice is the same as once |
| VirtualBridge.StickSourceAsWritten | desktop-app/src/bridge/virtual-gamepad-bridge.py:150-153 | as written the stick read is always an object |
| VirtualBridge.StickFallbackIgnored | desktop-app/src/bridge/virtual-gamepad-bridge.py:150-153 | as written, with `leftStick` missing the `stick` object is never read |
| VirtualBridge.StickFallbackCounterexample | desktop-app/src/bridge/virtual-gamepad-bridge.py:150-153 | a payload with its stick under `stick` only is read as a centred stick |
| VirtualBridge.StickSource | desktop-app/src/bridge/virtual-gamepad-bridge.py:150-158 | the corrected stick read is always an object |
| VirtualBridge.StickSourceSpec | desktop-app/src/bridge/virtual-gamepad-bridge.py:150-158 | the corrected read agrees with the code when the key holds a dict and reads the fallback dict otherwise |
| VirtualBridge.ClampedField | desktop-app/src/bridge/virtual-gamepad-bridge.py:64-65 | a read value lies within the bounds, and a missing key reads 0 clamped |
| VirtualBridge.DirectionActions | desktop-app/src/bridge/virtual-gamepad-bridge.py:176-178 | held direction buttons give only d-pad actions |
| VirtualBridge.MappedActionsMembers | desktop-app/src/bridge/virtual-gamepad-bridge.py:180-186 | an action is mapped exactly when some pressed button's list holds it |
| VirtualBridge.FrameActions | desktop-app/src/bridge/virtual-gamepad-bridge.py:176-188 | a frame never holds opposite directions |
| VirtualBridge.FrameActionsSpec | desktop-app/src/bridge/virtual-gamepad-bridge.py:176-188 | a non-d-pad action is present exactly when a pressed button maps to it; a direction exactly when it is asked for and its opposite is not |
| VirtualBridge.DeriveActions | desktop-app/src/bridge/virtual-gamepad-bridge.py:161-201 | the frame's actions are those of its buttons; sticks lie in [-1, 1] and triggers in [0, 1]; an `lt`/`rt` action holds its trigger fully down |
| VirtualBridge.DeriveActionsNeutral | desktop-app/src/bridge/virtual-gamepad-bridge.py:161-201 | an empty payload gives no actions and every axis at rest |
| Pads.NewPad | desktop-app/src/bridge/virtual-gamepad-bridge.py:204-208 | a new pad holds nothing and its device has had no update |
| Pads.Digital | desktop-app/src/bridge/virtual-gamepad-bridge.py:210-372 | the buttons a pad holds are drawn from the frame's actions |
| Pads.Ds4DpadVector | desktop-app/src/bridge/virtual-gamepad-bridge.py:321-344 | on a resolved action set the DualShock d-pad direction is the sum of the held directions |
| Pads.Apply | desktop-app/src/bridge/virtual-gamepad-bridge.py:210-372 | the pad then holds exactly the digital actions; it releases what it held and no longer wants and presses what it newly wants |
| Pads.Reset | desktop-app/src/bridge/virtual-gamepad-bridge.py:240-377 | after a reset nothing is held |
| Pads.NewPadInSync | desktop-app/src/bridge/virtual-gamepad-bridge.py:248-268 | a new pad's device holds exactly what the pad believes pressed |
| Pads.ApplyInSync | desktop-app/src/bridge/virtual-gamepad-bridge.py:270-372 | after `apply` the device holds exactly the wanted buttons and has had one more update |
| Pads.ResetInSync | desktop-app/src/bridge/virtual-gamepad-bridge.py:297-377 | after `reset` the device reports neutral, updated once more, in step with the pad |
| Pads.ApplyStable | desktop-app/src/bridge/virtual-gamepad-bridge.py:280-288 | releases and presses never overlap, and applying the same frame again does nothing to the buttons |
| Pads.ApplyDpad | desktop-app/src/bridge/virtual-gamepad-bridge.py:321-372 | the DualShock d-pad follows the frame's directions; the Xbox pad holds them as buttons |
| BridgeRuntime.Start | desktop-app/src/bridge/virtual-gamepad-bridge.py:505-569 | a started bridge is locked exactly when `--profile` was given, holds nothing, and uses the normalised code |
| BridgeRuntime.StartValid | desktop-app/src/bridge/virtual-gamepad-bridge.py:505-569 | a started bridge's active profile is one the catalog has |
| BridgeRuntime.StartFails | desktop-app/src/bridge/virtual-gamepad-bridge.py:507-530 | start-up fails without a code, without the catalog, or without any profile |
| BridgeRuntime.SetActiveProfile | desktop-app/src/bridge/virtual-gamepad-bridge.py:406-415 | only the active profile can change |
| BridgeRuntime.SetActiveProfileValid | desktop-app/src/bridge/virtual-gamepad-bridge.py:406-415 | the active profile stays an available one, and a request naming a profile makes it active |
| BridgeRuntime.Ingest | desktop-app/src/bridge/virtual-gamepad-bridge.py:417-426 | a non-dict payload changes nothing |
| BridgeRuntime.IngestValid | desktop-app/src/bridge/virtual-gamepad-bridge.py:417-426 | ingesting keeps the maps well formed and loses no profile |
| BridgeRuntime.IngestStores | desktop-app/src/bridge/virtual-gamepad-bridge.py:417-426 | a payload with an id and a virtual-map dict is stored under that id |
| BridgeRuntime.IngestInto | desktop-app/src/bridge/virtual-gamepad-bridge.py:417-426 | ingesting leaves the pad, the active profile and the lock alone |
| BridgeRuntime.IngestIntoValid | desktop-app/src/bridge/virtual-gamepad-bridge.py:417-426 | ingesting keeps the runtime valid |
| BridgeRuntime.RequestedProfile | desktop-app/src/bridge/virtual-gamepad-bridge.py:484-485 | when reading the config fails there is no requested id |
| BridgeRuntime.ApplyRequest | desktop-app/src/bridge/virtual-gamepad-bridge.py:486-487 | a falsy request changes nothing |
| BridgeRuntime.ApplyRequestValid | desktop-app/src/bridge/virtual-gamepad-bridge.py:486-487 | applying a request keeps the runtime valid |
| BridgeRuntime.OnJoinAck | desktop-app/src/bridge/virtual-gamepad-bridge.py:475-489 | the bridge exits with 1 exactly for a missing or failed acknowledgement, and a locked profile stays active |
| BridgeRuntime.OnJoinAckValid | desktop-app/src/bridge/virtual-gamepad-bridge.py:475-489 | the join acknowledgement keeps the runtime valid |
| BridgeRuntime.OnConfigUpdated | desktop-app/src/bridge/virtual-gamepad-bridge.py:455-466 | a locked bridge ignores configuration updates; the pad and the lock never change |
| BridgeRuntime.OnConfigUpdatedValid | desktop-app/src/bridge/virtual-gamepad-bridge.py:455-466 | a configuration update keeps the runtime valid |
| BridgeRuntime.ConfigSwitchesProfile | desktop-app/src/bridge/virtual-gamepad-bridge.py:455-466 | an unlocked bridge told to use a profile id switches to its resolution |
| BridgeRuntime.OnSessionInput | desktop-app/src/bridge/virtual-gamepad-bridge.py:447-453 | input changes only the pad |
| BridgeRuntime.OnSessionInputApplies | desktop-app/src/bridge/virtual-gamepad-bridge.py:447-453 | after input the pad holds exactly the digital actions of the frame derived with the active profile's map |
| BridgeRuntime.OnSessionInputValid | desktop-app/src/bridge/virtual-gamepad-bridge.py:447-453 | input keeps the runtime valid |
| BridgeRuntime.OnDisconnect | desktop-app/src/bridge/virtual-gamepad-bridge.py:441-445 | a disconnect resets the pad and keeps the profiles |
| BridgeRuntime.OnSessionClosed | desktop-app/src/bridge/virtual-gamepad-bridge.py:468-473 | a closed session resets the pad and exits with 0 |
| BridgeRuntime.Shutdown | desktop-app/src/bridge/virtual-gamepad-bridge.py:495-503 | a signal resets the pad, exits 0 and keeps the profiles; with the client not connected this is exactly a host close, and with it connected the `disconnect` handler resets the pad a second time |
| BridgeRuntime.ShutdownUpdates | desktop-app/src/bridge/virtual-gamepad-bridge.py:441-445 | after a signal the device is neutral, pushed once more, or twice more when the client was connected |
| BridgeRuntime.ResetHandlersValid | desktop-app/src/bridge/virtual-gamepad-bridge.py:441-503 | disconnect, close and shutdown keep the runtime valid |
| KeyboardBridge.KeyName | bridge/keyboard-bridge.js:100-103 | a looked-up token holds only `[a-z0-9_]` |
| KeyboardBridge.KeyNamePipeline | bridge/keyboard-bridge.js:100-103 | the looked-up token is the trimmed, lower-cased text with everything outside `[a-z0-9_]` dropped |
| KeyboardBridge.KeyNameFixed | bridge/keyboard-bridge.js:100-103 | a string is its own token exactly when it holds only `[a-z0-9_]` |
| KeyboardBridge.ResolveKeyToken | bridge/keyboard-bridge.js:99-109 | a token that finds a key is non-empty and normalised |
| KeyboardBridge.ResolveKeyTokenAsWritten | bridge/keyboard-bridge.js:99-109 | as written the lookup normalises the same way and finds every key the own-property lookup finds |
| KeyboardBridge.ResolveKeyTokenStable | bridge/keyboard-bridge.js:99-109 | resolving a resolved token again gives the same token and the same key |
| KeyboardBridge.LetterTokensResolve | bridge/keyboard-bridge.js:26-29 | every single lower-case letter names its key |
| KeyboardBridge.DigitTokensUnresolved | bridge/keyboard-bridge.js:9-29 | no digit names a key |
| KeyboardBridge.ConstructorResolves | bridge/keyboard-bridge.js:107 | as written `constructor` finds a value in `KEY_TOKEN_MAP`; with own properties only it finds none |
| KeyboardBridge.MappingTokens | bridge/keyboard-bridge.js:115-118 | the tokens of a list are non-empty and no more than its entries |
| KeyboardBridge.NormalizeMapping | bridge/keyboard-bridge.js:111-128 | every stored button comes from the mapping's entries |
| KeyboardBridge.NormalizeMappingSpec | bridge/keyboard-bridge.js:111-128 | each button with at least one token is stored, one token bare and several as a list, and a button without tokens is left out |
| KeyboardBridge.MappingKeepsRepeats | bridge/keyboard-bridge.js:115-123 | a list naming the same token twice keeps both |
| KeyboardBridge.NormalizeBindingsFixed | bridge/keyboard-bridge.js:111-128 | normalising a map of normal bindings again gives it back |
| KeyboardBridge.SanitizedBindingNormal | bridge/keyboard-bridge.js:111-128 | every binding the profile catalog produces is already a normal binding |
| KeyboardBridge.SetActiveProfileAsWritten | bridge/keyboard-bridge.js:150-166 | as written the new profile carries a `mapping` and no `keyboardMap` |
| KeyboardBridge.FallbackMapIgnored | bridge/keyboard-bridge.js:152-157 | as written a payload without a map leaves the bridge with an empty mapping |
| KeyboardBridge.SetActiveProfile | bridge/keyboard-bridge.js:150-166 | with the fallback map in use the profile still carries a `mapping`, and a payload with a map gives what the code as written gives |
| KeyboardBridge.SetActiveProfileFallback | bridge/keyboard-bridge.js:150-157 | a payload without a map takes the keyboard map of the catalog profile it resolves to |
| KeyboardBridge.ResolvedKeys | bridge/keyboard-bridge.js:220-228 | the keys of a list are exactly its tokens that resolve to a key |
| KeyboardBridge.Requested | bridge/keyboard-bridge.js:209-229 | a pressed button with no mapping at all makes the lookup throw; otherwise the keys are exactly those of pressed, mapped buttons |
| KeyboardBridge.Desired | bridge/keyboard-bridge.js:205-232 | the desired keys hold no repeats |
| KeyboardBridge.DesiredSpec | bridge/keyboard-bridge.js:205-232 | the desired set holds exactly the keys some pressed, mapped button asks for |
| KeyboardBridge.DesiredWithoutMapping | bridge/keyboard-bridge.js:214 | a profile with no mapping throws exactly when some button is pressed |
| KeyboardBridge.ConstructorCounterexample | bridge/keyboard-bridge.js:214-226 | as written, pressing a button bound to `constructor` asks for that token; with own properties only it asks for nothing |
| KeyboardBridge.Events | bridge/keyboard-bridge.js:168-194 | one key event per token that names a key, all up or all down |
| KeyboardBridge.KeySync | bridge/keyboard-bridge.js:234-256 | the held set becomes the desired set; released keys are those held and no longer wanted, pressed keys those wanted and not held, and every release comes before every press |
| KeyboardBridge.KeySyncDistinct | bridge/keyboard-bridge.js:239-251 | the held keys stay free of repeats |
| KeyboardBridge.KeySyncStable | bridge/keyboard-bridge.js:234-256 | syncing to what is already held sends nothing |
| KeyboardBridge.Start | bridge/keyboard-bridge.js:130-143 | start-up exits exactly for `--help` (status 0) or an empty normalised code (status 1); otherwise nothing is held and the profile is locked exactly when `--profile` was given |
| KeyboardBridge.StartCode | bridge/keyboard-bridge.js:79-83 | the bridge runs with the relay's normal form of its code |
| KeyboardBridge.OnJoinAckAsWritten | bridge/keyboard-bridge.js:274-288 | as written a failed join exits 1 and changes nothing; no key event is sent and the lock stays |
| KeyboardBridge.LockIgnoredAsWritten | bridge/keyboard-bridge.js:280-284 | as written a locked bridge takes the profile id the session sends |
| KeyboardBridge.LockCounterexample | bridge/keyboard-bridge.js:280-284 | a bridge locked to `racing` joining a `platformer` session ends up on `platformer` |
| KeyboardBridge.OnJoinAck | bridge/keyboard-bridge.js:274-288 | a failed join exits 1 and changes nothing; an unlocked bridge behaves as the code as written whenever the payload carries a map |
| KeyboardBridge.JoinAckKeepsLock | bridge/keyboard-bridge.js:280-284 | with the lock honoured a locked bridge keeps its catalog profile and its map |
| KeyboardBridge.JoinAckFollowsSession | bridge/keyboard-bridge.js:280-281 | an unlocked bridge takes the session's profile and its map |
| KeyboardBridge.OnConfigUpdated | bridge/keyboard-bridge.js:295-301 | a locked bridge, or an update without a profile id, changes nothing; no key event, no exit |
| KeyboardBridge.ConfigUpdateApplies | bridge/keyboard-bridge.js:150-157 | an unlocked bridge given an update that names a profile takes the keys of the update's own map, or, when it carries none, the keyboard map of the named catalog profile (the corrected fallback; see Findings) |
| KeyboardBridge.OnInput | bridge/keyboard-bridge.js:291-293 | input changes only the held keys, and releases come before presses |
| KeyboardBridge.OnInputSyncs | bridge/keyboard-bridge.js:291-293 | after input the bridge holds exactly the keys the payload asks for |
| KeyboardBridge.OnInputValid | bridge/keyboard-bridge.js:291-293 | input keeps the bridge valid |
| KeyboardBridge.ReleaseAll | bridge/keyboard-bridge.js:196-203 | every held key is released and nothing stays held |
| KeyboardBridge.ReleaseAllEach | bridge/keyboard-bridge.js:196-203 | each held key is released exactly once, in order |
| KeyboardBridge.OnSessionClosed | bridge/keyboard-bridge.js:303-307 | a closed session releases everything and exits 0 |
| KeyboardBridge.OnDisconnect | bridge/keyboard-bridge.js:309-312 | a disconnect releases everything and keeps running |
| KeyboardBridge.Shutdown | bridge/keyboard-bridge.js:309-319 | a signal releases every key and exits 0; with the socket not connected this is exactly a host close, and with it connected the `disconnect` listener's release runs as well |
| KeyboardBridge.ShutdownReleases | bridge/keyboard-bridge.js:196-203 | on a valid bridge a signal sends only releases of held keys, each held key twice when the socket is connected (both release loops copy the held set before either deletes from it) and once otherwise |
| KeyboardBridge.HandlersValid | bridge/keyboard-bridge.js:267-319 | every handler keeps the bridge valid |
| LegacyGamepads.LookupIgnoresCase | server/gamepad_manager.py:42-48 | a name and its upper-case spelling find the same button, since the name is lower-cased before the lookup |
| LegacyGamepads.NewGamepad | server/gamepad_manager.py:36-39 | a new gamepad is open, carries its player index and holds the neutral report, with nothing sent yet |
| LegacyGamepads.PressButton | server/gamepad_manager.py:42-48 | a name `LookupButton` does not find changes nothing; a known one adds its flag to the buttons down, sends one update and leaves sticks and triggers alone |
| LegacyGamepads.ReleaseButton | server/gamepad_manager.py:50-56 | an unknown name changes nothing; a known one takes its flag out of the buttons down and sends one update |
| JsonValue.PyClamp | server/gamepad_manager.py:58-82 | the result lies between the bounds, equals the value inside them and the nearer bound outside them |
| LegacyGamepads.SetJoystick | server/gamepad_manager.py:58-70 | the chosen stick ends within [-1, 1] on both axes, equal to the request when it was already in range; the other stick, the triggers and the buttons are untouched; one update is sent |
| LegacyGamepads.SetTrigger | server/gamepad_manager.py:72-82 | the chosen trigger ends within [0, 1], equal to the request when in range; everything else is untouched; one update is sent |
| LegacyGamepads.Reset | server/gamepad_manager.py:84-87 | the report becomes neutral and one update is sent |
| LegacyGamepads.Close | server/gamepad_manager.py:89-94 | closing marks the gamepad inactive; an open one is reset once, a closed one is left exactly as it was |
| LegacyGamepads.CloseIdempotent | server/gamepad_manager.py:89-94 | closing twice equals closing once, so the device is reset at most one time |
| LegacyGamepads.OperationsInRange | server/gamepad_manager.py:42-94 | from a report within the device's range, every gamepad operation yields a report within range, whatever values the client sent |
| LegacyGamepads.PressRelease | server/gamepad_manager.py:42-56 | pressing then releasing a known button leaves it up, the other buttons as they were, after two updates |
| LegacyGamepads.NewManager | server/gamepad_manager.py:100-103 | a new manager holds no gamepads and will hand out index 0 first |
| LegacyGamepads.CreateGamepad | server/gamepad_manager.py:105-115 | no gamepad exactly when the count has reached capacity, and then nothing changes; otherwise a new open gamepad under the next index, which moves on by one |
| LegacyGamepads.RemoveGamepad | server/gamepad_manager.py:117-121 | an unknown index changes nothing; a known one is closed and dropped, and no other gamepad is touched |
| LegacyGamepads.GetGamepad | server/gamepad_manager.py:123-125 | a gamepad is found exactly when its index is registered; in a valid manager it is open and carries that index |
| LegacyGamepads.CloseAll | server/gamepad_manager.py:131-135 | afterwards no gamepad is registered, and every gamepad that was is returned closed; the index counter and capacity stay |
| LegacyGamepads.NewManagerValid | server/gamepad_manager.py:100-103 | a new manager satisfies the registry invariant: every gamepad open, under its own index, below the next index |
| LegacyGamepads.CreateValid | server/gamepad_manager.py:105-115 | creating keeps the invariant; a new gamepad's index was never registered, is above every registered one, and the count grows by exactly one |
| LegacyGamepads.RemoveValid | server/gamepad_manager.py:117-121 | removing keeps the invariant and lowers the count by one exactly when the index was registered |
| LegacyGamepads.CloseAllValid | server/gamepad_manager.py:131-135 | closing everything keeps the invariant |
| LegacyGamepads.UpdateValid | server/gamepad_manager.py:123-125 | driving a registered gamepad keeps the invariant |
| LegacyGamepads.RemovedIndexNotReused | server/gamepad_manager.py:105-121 | after a removal a new gamepad is always available and never takes the freed index |
| LegacyGamepads.StepValid | server/gamepad_manager.py:105-135 | any one manager operation keeps the invariant and hands out at most one index, taken from between the old and new counter |
| LegacyGamepads.RunIndicesIncrease | server/gamepad_manager.py:105-135 | over any sequence of creations, removals and close-alls, the indices handed out strictly increase, so none is ever handed out twice |
| LegacyServer.NewServer | server/server.py:52-55 | a new server has no sessions, no gamepads, and the capacity `MAX_CONTROLLERS` = 4 from `server/config.py` |
| LegacyServer.PlayerName | server/server.py:44 | a player's name is "Player " followed by a number |
| LegacyServer.PlayerNameNumber | server/server.py:44 | the number in the name is all digits and equals the index counted from one |
| LegacyServer.BroadcastCountsSessions | server/server.py:173-184 | in a valid server every session, and nobody else, is told the number of sessions with the capacity |
| LegacyServer.Connect | server/server.py:68-101 | a full manager refuses the client with an error and a close, registering nothing; otherwise the client gets a session named after its new gamepad's index, learns its place and the count, and every session hears the new count |
| LegacyServer.Disconnect | server/server.py:117-126 | an unregistered connection leaves nothing behind; a registered one loses its session and its gamepad, and the remaining sessions hear the new count |
| LegacyServer.ButtonEffect | server/server.py:132-138 | a non-string or unknown button name leaves the gamepad alone; a known one is pressed when `pressed` is truthy and released otherwise |
| LegacyServer.PadEffect | server/server.py:128-164 | only the four pad message types act; a joystick or trigger message touches only the named side and never the buttons; any report in range stays in range |
| LegacyServer.HandleMessage | server/server.py:128-171 | a heartbeat refreshes only the sender's time and is answered with it; any other message changes only the sender's gamepad; nobody else is sent anything and no session or gamepad appears or disappears |
| LegacyServer.DpadIsButton | server/server.py:157-164 | a d-pad message acts as the button message naming `dpad_` followed by its direction |
| LegacyServer.TimedOut | server/server.py:186-200 | the sweep only ever picks registered connections |
| LegacyServer.HeartbeatKeepsAlive | server/server.py:186-200 | a session whose last heartbeat came at t is spared by every sweep up to t plus the 15-second timeout and picked by every sweep after it |
| LegacyServer.TimedOutGrows | server/server.py:193 | without new heartbeats, a session picked by one sweep is picked by every later one |
| LegacyServer.NewSessionSpared | server/server.py:45 | a client that has just connected survives every sweep within the timeout of its arrival |
| LegacyServer.Stop | server/server.py:266-268 | shutdown leaves no gamepad registered and the sessions as they were |
| LegacyServer.StopThenDisconnect | server/server.py:117-126 | after shutdown, a connection ending leaves the manager empty and drops only its own session |
| LegacyServer.NewServerValid | server/server.py:52-55 | a new server satisfies the registry invariant: sessions and gamepads correspond one to one by index, each session named after its index |
| LegacyServer.SessionsBounded | server/server.py:74-84 | under the invariant there are never more sessions than `MAX_CONTROLLERS` |
| LegacyServer.ConnectCorresponds | server/server.py:83-84 | a new session and its new gamepad extend the one-to-one correspondence |
| LegacyServer.ConnectValid | server/server.py:68-101 | connecting a new client keeps the invariant, whether it is accepted or refused |
| LegacyServer.DisconnectValid | server/server.py:117-126 | the cleanup of any connection keeps the invariant |
| LegacyServer.HandleValid | server/server.py:128-171 | handling any message keeps the invariant |
| LegacyServer.ConnectThenDisconnect | server/server.py:68-126 | a client that connects and leaves restores the sessions and gamepads as they were; only the index counter has moved on |

## Left out

- Transport and effects: sockets, socket.io rooms, HTTP routes and the `ws` library are replaced by outboxes of deliveries. A send that fails is not modelled.
- Randomness: the session code draws and the pairing code draw are parameters. `createSessionCode` gets a finite stream of draws, and its retry-until-fresh loop becomes a scan of that stream.
- Clocks: `Date.now()` and `time.time()` are parameters. The legacy server reads the clock twice for a heartbeat; the model uses one `now` for both.
- Logging, `console.log`, dry-run printing, QR codes, Bonjour discovery, `get_local_ip`, the Electron UI and the desktop host's `emitState` every 60 inputs (it only feeds the UI).
- Devices: vgamepad, ViGEm and nut-js are records of what was written to them and how many updates were pushed. Driver failures and the exceptions they raise are not modelled, except where the source's own control flow depends on them.
- Catalog storage: reading the catalog file's bytes and `JSON.parse` (`Catalogs.ReadCatalog` takes their outcome), writing the file, and the `./profiles` module `appServer.js` imports, which is taken to behave as `lib/profiles.js`.
- Relay.ConfigPayload: carries the code and the config only. The profile and layout objects the payload also holds are the catalog lookups of that config, so they are determined by it.
- Host server: `stop()` and `regeneratePairingCode()` are not part of the modelled core.
- The desktop host feeds input to `Vigem.FixedApplyInput`, the corrected lookup described under Findings, rather than to the throwing lookup as written.
- VirtualBridge.DeriveActions: reads sticks through `StickSource`, the corrected fallback of the Findings, so a payload with no `leftStick` but a `stick` object moves the left stick, where the code as written centres it (`StickSourceAsWritten`).
- BridgeRuntime.OnSessionInput: inherits the corrected stick fallback from `VirtualBridge.DeriveActions`.
- KeyboardBridge.OnInput: resolves tokens with the own-key lookup `HasKey`, the correction of the Findings; as written (`HasKeyAsWritten`) a token such as `constructor` is sent to the keyboard.
- KeyboardBridge.OnJoinAck: a locked bridge keeps its own profile (`JoinAckKeepsLock`), the correction of the Findings; as written the locked branch passes the ack's profile and takes its mapping. It also goes through the corrected `SetActiveProfile`, so an ack whose `profile` carries no map takes the named catalog profile's keyboard map, where keyboard-bridge.js:152-157 as written leaves the mapping empty (`FallbackMapIgnored`).
- KeyboardBridge.OnConfigUpdated: uses the corrected `SetActiveProfile`, in which a profile payload without a map takes the fallback profile's map; as written (`SetActiveProfileAsWritten`) the mapping becomes empty.
- KeyboardBridge.ConfigUpdateApplies: states the corrected fallback; the as-written behaviour is `FallbackMapIgnored`.
- Android.FromUri: query values are percent-decoded byte by byte for ASCII only; an escape of 0x80 or above is left encoded, whereas Android's `getQueryParameter` decodes UTF-8 and turns a malformed sequence into U+FFFD.
- Android.FromUriReads: the same ASCII-only decoding as `FromUri`.
- Uri.ToIntOrNull: accepts ASCII digits only, whereas Kotlin's `toIntOrNull` also accepts the other Unicode decimal digits.
- VirtualBridge.NormalizeSessionCode: `isalnum` and `upper` are ASCII-only here. Python's are Unicode-aware, so `"é12345"` becomes `"É1234"` in the bridge but `"12345"` here. The relay's `[^A-Z0-9]` filter drops `É`, so for non-ASCII input the bridge and the relay disagree on the code.
- VirtualBridge.SessionCodePipeline: the same ASCII-only `isalnum` and `upper` as `NormalizeSessionCode`.
- VirtualBridge.NormalizeAction: keeps ASCII letters, digits and `_` only, whereas Python's `isalnum` also keeps non-ASCII letters and digits.
- VirtualBridge.NormalizeActionPipeline: the same ASCII-only `isalnum` as `NormalizeAction`.
- VirtualBridge.NormalizeActionFixed: the fixed points are the ASCII actions; in Python a non-ASCII word such as `é` is also its own action.
- JSON: an object is a list of entries and lookups take the first entry with a key. Real decoders keep the last duplicate (`json.loads`), so the model assumes objects with distinct keys.
- JSON: `Object.entries` lists integer-like keys first in JavaScript; the model keeps source order. The `__proto__` key of a decoded object is an ordinary entry.
- Numbers: stick, trigger and axis values are reals. IEEE floating point, infinities and rounding are not modelled. JavaScript `NaN` is modelled where clamping meets it.
- JsonValue.JsToNumber: a string that is not blank coerces to `NaN`, whereas JavaScript parses numeric strings; this covers the one element of a one-element array too, so `{"x": "0.5"}` and `{"x": ["0.5"]}` read as 0.5 in the source and as `NaN` here. Other arrays convert as JavaScript does: `[]` is 0, `[0.5]` is 0.5, and a longer array is `NaN`.
- Profiles: an entry's `name`, `description`, labels, orders and map entries are taken as the strings `String(value || "")` gives them; only entry ids and default ids go through the modelled `String()` coercion (`JsonValue.JsString`).
- JsonValue.PyFloat: a string is treated as not convertible, whereas Python's `float` parses numeric strings.
- JsonValue.JsToString: a number is written out only when it is integral and below 10^21 in magnitude; any other number renders as the empty string instead of JavaScript's shortest round-trip text. `JsonValue.JsString`, and through it the configuration ids, catalog entry and default ids, join codes and bridge names, inherit this.
- Relay.CreateSessionRegisters: a non-integral or very large numeric `gameProfileId` or `layoutId` is read as the empty id, through `JsonValue.JsToString`; every other value is coerced as `String()` does.
- Relay.UpdateConfigReplaces: the same limit on numeric ids as `CreateSessionRegisters`.
- Relay.BridgeName: JavaScript's `slice(0, 40)` counts UTF-16 code units; the model counts characters, so a name with characters outside the Basic Multilingual Plane is cut at a different place.
- Vigem.Field: the property key of a non-integral number is the empty string here, through `JsonValue.JsToString`, so such a `button` or `direction` is treated as unmapped.
- VirtualBridge.PyStr: numbers, lists and objects render as the empty string instead of their Python `str()` text.
- Text: case mapping and whitespace are ASCII-only, plus the Unicode spaces JavaScript's `trim` and Python's `strip` remove. Full Unicode case mapping such as `ß` becoming `SS` is not modelled.
- Keyboard bridge: nut-js `Key` values are taken to be truthy. The promise queue that serialises key syncs is modelled by running each sync as one step.
- Python bridge: argument parsing beyond the session code and profile options is left out, and so is the socket.io client's reconnection.
- Legacy server: a message that is not valid JSON is logged and changes nothing, so the model takes decoded messages. The broadcast of the player count is a set of deliveries, without order.
- Legacy server: messages that arrive after `close_all` at shutdown are not modelled.
- LegacyServer.TimedOut: its own contract says only that the sweep picks registered connections. Which sessions it picks is stated by `HeartbeatKeepsAlive`, `TimedOutGrows` and `NewSessionSpared`. The sweep's socket close ends in `Disconnect`, which is modelled separately.
- LegacyServer.ConnectValid: takes a connection that is not already registered, since each `websockets` connection is a new object.
- Relay.ConnectValid: takes a fresh socket id, since socket.io ids are random and never reused.

## Findings

| source | as written | input that shows it | evidently intended | confidence | as-written member | corrected member |
|---|---|---|---|---|---|---|
| server.js:255-299 | a controller or bridge join adds the socket to the new session and overwrites `socket.data`, but never takes it out of the session it was in | a bridge joins session A, then joins session B: it stays in A's bridge set and room, A's host hears no disconnect, and A's input still reaches it | leave the old session first, as the relay's session-switch regression script expects | high, not executed | RelayIsolation.AsWrittenBridgeSwitch | RelayIsolation.FixedBridgeJoinIsolated |
| desktop/src/main/vigemBridge.ts:173-177 | `BUTTON_MAPPING[message.button]` is a plain-object lookup, so names inherited from `Object.prototype` are found | a paired client sends `{"type":"button","button":"toString","state":"pressed"}`: the lookup yields a function, `controller.button[...]` is undefined, and `applyInput` throws | look up only the table's own keys, ignoring any other name | high, not executed | Vigem.AsWrittenInheritedButtonThrows | Vigem.ButtonSetsMapped |
| desktop-app/src/bridge/virtual-gamepad-bridge.py:150-153 | with the key missing or falsy, `payload.get(key) or {}` is the dict `{}`, so the `fallback` key is never read | a payload with no `leftStick` but a `stick` object: the left stick reads as centred | read the fallback key when the primary key is missing | high, not executed | VirtualBridge.StickFallbackCounterexample | VirtualBridge.StickSourceSpec |
| bridge/keyboard-bridge.js:99-109 | `KEY_TOKEN_MAP` is a plain object, so `KEY_TOKEN_MAP[normalized]` finds inherited names | a profile maps a button to the token `constructor`: it resolves to a function instead of no key, and is sent to the keyboard as a key | resolve only the named keys and the letters a to z | high, not executed | KeyboardBridge.ConstructorCounterexample | KeyboardBridge.ResolveKeyToken |
| bridge/keyboard-bridge.js:280-284 | the locked branch still passes `res.profile`, and `payloadMap` defaults to `{}`, which is truthy, so `fallbackMap` is never used | run with `--profile racing` and join a session whose ack carries a platformer profile: the active mapping becomes the platformer one | keep the locked profile's own mapping at join | medium, not executed | KeyboardBridge.LockCounterexample | KeyboardBridge.JoinAckKeepsLock |
| bridge/keyboard-bridge.js:150-157 | `payloadMap` defaults to `{}`, which is truthy, so the `fallbackMap` alternative after it is never taken | a host update naming the racing profile whose `profile` object carries no map: the bridge is left with no key bindings instead of the racing profile's keyboard map | use the fallback profile's map when the payload carries none | high, not executed | KeyboardBridge.FallbackMapIgnored | KeyboardBridge.SetActiveProfileFallback |
