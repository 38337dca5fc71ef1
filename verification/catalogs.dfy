/** The game-profile / layout catalog as a value: sanitising a raw catalog,
    resolving requested ids against it, and creating, updating and deleting
    game profiles (lib/profiles.js). Reading and persisting the catalog file
    are left out; the catalog is passed in and returned. */
module Catalogs {
  import opened Wrappers
  import opened Text
  import opened Profiles
  import JsonValue

  /** The ids a session runs with. */
  datatype Config = Config(gameProfileId: string, layoutId: string)

  datatype Catalog = Catalog(defaults: Config, gameProfiles: seq<GameProfile>, layouts: seq<Layout>)

  /** A catalog as read from disk or handed back for re-sanitising; a missing
      or non-array list is the empty list, and a default id is the decoded
      JSON value (`None` when it or `defaults` is missing). */
  datatype RawCatalog = RawCatalog(
    gameProfiles: seq<RawProfile>,
    layouts: seq<RawLayout>,
    defaultProfileId: Option<JsonValue.Json>,
    defaultLayoutId: Option<JsonValue.Json>)

  datatype ProfileError = InvalidProfileId | ProfileExists | ProfileNotFound | LastProfile

  datatype Mode = Create | Update

  function Ids<T>(xs: seq<T>, idOf: T -> string): (r: seq<string>)
    ensures |r| == |xs|
    ensures forall i {:trigger r[i]} | 0 <= i < |xs| :: r[i] == idOf(xs[i])
  {
    if |xs| == 0 then [] else [idOf(xs[0])] + Ids(xs[1..], idOf)
  }

  function ProfileId(p: GameProfile): string { p.id }
  function LayoutId(l: Layout): string { l.id }

  function ProfileIds(c: Catalog): seq<string> { Ids(c.gameProfiles, ProfileId) }
  function LayoutIds(c: Catalog): seq<string> { Ids(c.layouts, LayoutId) }

  /** What every catalog the source holds satisfies: both lists non-empty,
      ids unique, every entry sanitised (so its id is non-empty and
      normalised), and both defaults name entries. */
  predicate ValidCatalog(c: Catalog) {
    && |c.gameProfiles| > 0 && |c.layouts| > 0
    && Distinct(ProfileIds(c)) && Distinct(LayoutIds(c))
    && (forall i | 0 <= i < |c.gameProfiles| :: SanitizedProfile(c.gameProfiles[i]))
    && (forall i | 0 <= i < |c.layouts| :: SanitizedLayout(c.layouts[i]))
    && c.defaults.gameProfileId in ProfileIds(c)
    && c.defaults.layoutId in LayoutIds(c)
  }

  // ---------------------------------------------------------------------
  // Sanitising

  lemma {:induction false} IdsAppend<T>(xs: seq<T>, ys: seq<T>, idOf: T -> string)
    ensures Ids(xs + ys, idOf) == Ids(xs, idOf) + Ids(ys, idOf)
  {
  }

  /** The source's de-duplicating loop: keep each candidate whose id is
      non-empty and not yet seen. */
  function KeepFirstById<T>(acc: seq<T>, cands: seq<T>, idOf: T -> string): (r: seq<T>)
    ensures |acc| <= |r|
    decreases |cands|
  {
    if |cands| == 0 then acc
    else
      KeepFirstById(KeepOne(acc, cands[0], idOf), cands[1..], idOf)
  }

  /** The ids the loop keeps are exactly the first occurrences of the
      non-empty candidate ids (the reference definition `FirstOccurrences`). */
  lemma {:induction false} KeepFirstByIdIds<T>(acc: seq<T>, seen: seq<string>, cands: seq<T>, idOf: T -> string)
    requires Ids(acc, idOf) == FirstOccurrences(seen)
    ensures Ids(KeepFirstById(acc, cands, idOf), idOf) == FirstOccurrences(seen + Ids(cands, idOf))
    decreases |cands|
  {
    if |cands| == 0 {
      assert seen + Ids(cands, idOf) == seen;
    } else {
      var c := cands[0];
      var seen' := seen + [idOf(c)];
      KeepStepIds(acc, seen, c, idOf);
      KeepFirstByIdIds(KeepOne(acc, c, idOf), seen', cands[1..], idOf);
      assert KeepFirstById(acc, cands, idOf) == KeepFirstById(KeepOne(acc, c, idOf), cands[1..], idOf);
      IdsCons(seen, cands, idOf);
    }
  }

  lemma {:induction false} IdsCons<T>(seen: seq<string>, cands: seq<T>, idOf: T -> string)
    requires |cands| > 0
    ensures (seen + [idOf(cands[0])]) + Ids(cands[1..], idOf) == seen + Ids(cands, idOf)
  {
    assert Ids(cands, idOf) == [idOf(cands[0])] + Ids(cands[1..], idOf);
  }

  /** One step of the loop: `c` is appended when its id is new. */
  function KeepOne<T>(acc: seq<T>, c: T, idOf: T -> string): seq<T> {
    var id := idOf(c);
    if id != "" && id !in Ids(acc, idOf) then acc + [c] else acc
  }

  lemma {:induction false} KeepStepIds<T>(acc: seq<T>, seen: seq<string>, c: T, idOf: T -> string)
    requires Ids(acc, idOf) == FirstOccurrences(seen)
    ensures Ids(KeepOne(acc, c, idOf), idOf) == FirstOccurrences(seen + [idOf(c)])
  {
    var seen' := seen + [idOf(c)];
    assert seen'[..|seen'| - 1] == seen;
    FirstOccurrencesMembers(seen);
    IdsAppend(acc, [c], idOf);
  }

  /** Every kept entry was already accumulated, or is the first candidate
      with its id, that id being non-empty and not accumulated before. */
  lemma {:induction false} KeepFirstByIdFrom<T>(acc: seq<T>, cands: seq<T>, idOf: T -> string, x: T)
    requires x in KeepFirstById(acc, cands, idOf)
    ensures x in acc || exists j | 0 <= j < |cands| ::
      (FirstWithId(cands, idOf, j) && cands[j] == x && idOf(x) != "" && idOf(x) !in Ids(acc, idOf))
    decreases |cands|
  {
    if |cands| > 0 {
      var c := cands[0];
      var id := idOf(c);
      var acc' := KeepOne(acc, c, idOf);
      KeepFirstByIdFrom(acc', cands[1..], idOf, x);
      if x !in acc {
        if x in acc' {
          assert FirstWithId(cands, idOf, 0);
        } else {
          var j :| 0 <= j < |cands[1..]| && FirstWithId(cands[1..], idOf, j)
            && cands[1..][j] == x && idOf(x) != "" && idOf(x) !in Ids(acc', idOf);
          IdsAppend(acc, [c], idOf);
          assert idOf(x) != id;
          assert FirstWithId(cands, idOf, j + 1);
        }
      }
    }
  }

  /** `cands[j]` is the first candidate carrying its id. */
  predicate FirstWithId<T>(cands: seq<T>, idOf: T -> string, j: nat)
    requires j < |cands|
  {
    forall k | 0 <= k < j :: idOf(cands[k]) != idOf(cands[j])
  }

  /** Candidates with distinct non-empty ids, none already accumulated, are
      all kept, in order. */
  lemma {:induction false} KeepFirstByIdAll<T>(acc: seq<T>, cands: seq<T>, idOf: T -> string)
    requires Distinct(Ids(cands, idOf))
    requires forall j | 0 <= j < |cands| :: idOf(cands[j]) != ""
    requires forall i, j | 0 <= i < |acc| && 0 <= j < |cands| :: idOf(acc[i]) != idOf(cands[j])
    ensures KeepFirstById(acc, cands, idOf) == acc + cands
    decreases |cands|
  {
    if |cands| == 0 {
      assert acc + cands == acc;
    } else {
      var c := cands[0];
      var ids := Ids(cands, idOf);
      var rest := cands[1..];
      assert idOf(c) !in Ids(acc, idOf) by {
        forall k | 0 <= k < |acc| ensures Ids(acc, idOf)[k] != idOf(c) {
          assert Ids(acc, idOf)[k] == idOf(acc[k]);
        }
      }
      assert KeepOne(acc, c, idOf) == acc + [c];
      assert Distinct(Ids(rest, idOf)) by {
        forall a, b | 0 <= a < b < |rest| ensures Ids(rest, idOf)[a] != Ids(rest, idOf)[b] {
          assert ids[a + 1] == idOf(rest[a]) && ids[b + 1] == idOf(rest[b]);
        }
      }
      forall i, j | 0 <= i < |acc + [c]| && 0 <= j < |rest| ensures idOf((acc + [c])[i]) != idOf(rest[j]) {
        if i == |acc| {
          assert ids[0] == idOf(c) && ids[j + 1] == idOf(rest[j]);
        }
      }
      KeepFirstByIdAll(acc + [c], rest, idOf);
      assert (acc + [c]) + rest == acc + cands;
    }
  }

  /** Candidates with distinct non-empty ids are all kept, in order. */
  lemma {:induction false} KeepAllIds<T>(cands: seq<T>, idOf: T -> string)
    requires Distinct(Ids(cands, idOf))
    requires forall i | 0 <= i < |cands| :: idOf(cands[i]) != ""
    ensures KeepFirstById([], cands, idOf) == [] + cands
  {
    KeepFirstByIdAll([], cands, idOf);
  }

  lemma {:induction false} EmptyConcat<T>(s: seq<T>)
    ensures [] + s == s
  {
  }

  function ProfileFallback(i: nat): string { "profile_" + NatToString(i + 1) }
  function LayoutFallback(i: nat): string { "layout_" + NatToString(i + 1) }

  /** Each raw profile sanitised with its position's fallback id: a profile
      without an id is named after its place in the list (`profile_1`, ...),
      and every candidate that ends up with an id is fully sanitised. */
  function ProfileCandidates(raws: seq<RawProfile>): (r: seq<GameProfile>)
    ensures |r| == |raws|
    ensures forall i | 0 <= i < |raws| :: r[i] == SanitizeGameProfile(raws[i], ProfileFallback(i))
    ensures forall i | 0 <= i < |raws| ::
      !JsonValue.JsTruthy(raws[i].id) ==> r[i].id == NormalizeId(ProfileFallback(i))
    ensures forall i | 0 <= i < |raws| ::
      JsonValue.JsTruthy(raws[i].id) ==> r[i].id == NormalizeId(JsonValue.JsToString(raws[i].id.value))
    ensures forall i | 0 <= i < |raws| :: r[i].id != "" ==> SanitizedProfile(r[i])
  {
    ProfilesSanitizedAt(raws);
    seq(|raws|, i requires 0 <= i < |raws| => SanitizeGameProfile(raws[i], ProfileFallback(i)))
  }

  lemma {:induction false} ProfilesSanitizedAt(raws: seq<RawProfile>)
    ensures forall i | 0 <= i < |raws| ::
      var p := SanitizeGameProfile(raws[i], ProfileFallback(i)); p.id != "" ==> SanitizedProfile(p)
  {
    forall i | 0 <= i < |raws| ensures var p := SanitizeGameProfile(raws[i], ProfileFallback(i)); p.id != "" ==> SanitizedProfile(p) {
      SanitizeGameProfileSanitized(raws[i], ProfileFallback(i));
    }
  }

  /** Each raw layout sanitised with its position's fallback id, in the same
      way as the profiles. */
  function LayoutCandidates(raws: seq<RawLayout>): (r: seq<Layout>)
    ensures |r| == |raws|
    ensures forall i | 0 <= i < |raws| :: r[i] == SanitizeLayout(raws[i], LayoutFallback(i))
    ensures forall i | 0 <= i < |raws| ::
      !JsonValue.JsTruthy(raws[i].id) ==> r[i].id == NormalizeId(LayoutFallback(i))
    ensures forall i | 0 <= i < |raws| ::
      JsonValue.JsTruthy(raws[i].id) ==> r[i].id == NormalizeId(JsonValue.JsToString(raws[i].id.value))
    ensures forall i | 0 <= i < |raws| :: r[i].id != "" ==> SanitizedLayout(r[i])
  {
    LayoutsSanitizedAt(raws);
    seq(|raws|, i requires 0 <= i < |raws| => SanitizeLayout(raws[i], LayoutFallback(i)))
  }

  lemma {:induction false} LayoutsSanitizedAt(raws: seq<RawLayout>)
    ensures forall i | 0 <= i < |raws| ::
      var l := SanitizeLayout(raws[i], LayoutFallback(i)); l.id != "" ==> SanitizedLayout(l)
  {
    forall i | 0 <= i < |raws| ensures var l := SanitizeLayout(raws[i], LayoutFallback(i)); l.id != "" ==> SanitizedLayout(l) {
      SanitizeLayoutSanitized(raws[i], LayoutFallback(i));
    }
  }

  const PlatformerRaw: RawProfile :=
    RawProfile(
      Some(JsonValue.JStr("platformer")), "Platformer", "Default profile",
      map["left" := One("left"), "right" := One("right"), "up" := One("up"), "down" := One("down"),
          "a" := One("space"), "b" := One("left_shift"), "x" := One("z"), "y" := One("x")],
      map["left" := Many(["dpad_left"]), "right" := Many(["dpad_right"]),
          "up" := Many(["dpad_up"]), "down" := Many(["dpad_down"]),
          "a" := Many(["south"]), "b" := Many(["east"]), "x" := Many(["west"]), "y" := Many(["north"])])

  const BalancedRaw: RawLayout :=
    RawLayout(
      Some(JsonValue.JStr("balanced")), "Balanced", "Default layout",
      Some(["stick", "action"]), Some(["x", "y", "a", "b"]), map[], map[], map[])

  /** The built-in profile used when no raw profile survives. */
  const PlatformerProfile: GameProfile := SanitizeGameProfile(PlatformerRaw, "platformer")

  /** The built-in layout used when no raw layout survives. */
  const BalancedLayout: Layout := SanitizeLayout(BalancedRaw, "balanced")

  lemma {:induction false} PlatformerProfileSanitized()
    ensures PlatformerProfile.id == "platformer"
    ensures SanitizedProfile(PlatformerProfile)
  {
    var id := "platformer";
    assert IsNormalId(id) by {
      forall i | 0 <= i < |id| ensures IsIdChar(id[i]) {
        assert IsLower(id[i]);
      }
    }
    NormalizeIdFixed(id);
    SanitizeGameProfileSanitized(PlatformerRaw, id);
  }

  lemma {:induction false} BalancedLayoutSanitized()
    ensures BalancedLayout.id == "balanced"
    ensures SanitizedLayout(BalancedLayout)
  {
    var id := "balanced";
    assert IsNormalId(id) by {
      forall i | 0 <= i < |id| ensures IsIdChar(id[i]) {
        assert IsLower(id[i]);
      }
    }
    NormalizeIdFixed(id);
    SanitizeLayoutSanitized(BalancedRaw, id);
  }

  /** The loop's result, with the built-in profile when nothing survives. */
  function SanitizeProfiles(raws: seq<RawProfile>): (r: seq<GameProfile>)
    ensures |r| > 0
  {
    var kept := KeepFirstById([], ProfileCandidates(raws), ProfileId);
    if |kept| == 0 then [PlatformerProfile] else kept
  }

  function SanitizeLayouts(raws: seq<RawLayout>): (r: seq<Layout>)
    ensures |r| > 0
  {
    var kept := KeepFirstById([], LayoutCandidates(raws), LayoutId);
    if |kept| == 0 then [BalancedLayout] else kept
  }

  /** The first id of `ids` unless `requested` (normalised) is one of them. */
  function PickDefault(ids: seq<string>, requested: string): (r: string)
    requires |ids| > 0
    ensures r in ids
    ensures NormalizeId(requested) in ids ==> r == NormalizeId(requested)
    ensures NormalizeId(requested) !in ids ==> r == ids[0]
  {
    var id := NormalizeId(requested);
    if id in ids then id else ids[0]
  }

  /** `sanitizeCatalog`. */
  function SanitizeCatalog(raw: RawCatalog): (r: Catalog)
    ensures |r.gameProfiles| > 0 && |r.layouts| > 0
    ensures r.defaults.gameProfileId == PickDefault(ProfileIds(r), JsonValue.JsString(raw.defaultProfileId, ""))
    ensures r.defaults.layoutId == PickDefault(LayoutIds(r), JsonValue.JsString(raw.defaultLayoutId, ""))
  {
    var profiles := SanitizeProfiles(raw.gameProfiles);
    var layouts := SanitizeLayouts(raw.layouts);
    Catalog(
      Config(PickDefault(Ids(profiles, ProfileId), JsonValue.JsString(raw.defaultProfileId, "")),
             PickDefault(Ids(layouts, LayoutId), JsonValue.JsString(raw.defaultLayoutId, ""))),
      profiles, layouts)
  }

  // ---------------------------------------------------------------------
  // Reading the catalog file

  /** A list entry of the catalog file: JSON `null`, on which sanitising
      throws as soon as it reads `.id`, or any other value, read as a raw
      entry (a value that is not an object has every field missing). */
  datatype FileEntry<T> = NullEntry | Present(value: T)

  /** The catalog file as `JSON.parse` gives it: `Unreadable` when the file
      is missing or is not JSON, `NullFile` for the value `null` (reading its
      `gameProfiles` throws), and otherwise its lists and default ids. */
  datatype CatalogFile =
    | Unreadable
    | NullFile
    | Parsed(
        gameProfiles: seq<FileEntry<RawProfile>>,
        layouts: seq<FileEntry<RawLayout>>,
        defaultProfileId: Option<JsonValue.Json>,
        defaultLayoutId: Option<JsonValue.Json>)

  predicate HasNull<T>(xs: seq<FileEntry<T>>) {
    exists i | 0 <= i < |xs| :: xs[i].NullEntry?
  }

  function Presents<T>(xs: seq<FileEntry<T>>): (r: seq<T>)
    requires !HasNull(xs)
    ensures |r| == |xs|
    ensures forall i | 0 <= i < |xs| :: xs[i] == Present(r[i])
  {
    seq(|xs|, i requires 0 <= i < |xs| => xs[i].value)
  }

  /** `sanitizeCatalog({})`: the built-in profile and layout only. */
  const BuiltinCatalog: Catalog := SanitizeCatalog(RawCatalog([], [], None, None))

  /** `readCatalogFromDisk`: the sanitised file, or the built-in catalog when
      reading, parsing or sanitising throws. A single `null` entry in either
      list discards every other entry of the file. */
  function ReadCatalog(f: CatalogFile): (r: Catalog)
    ensures ValidCatalog(r)
    ensures f.Parsed? && !HasNull(f.gameProfiles) && !HasNull(f.layouts) ==>
      r == SanitizeCatalog(RawCatalog(Presents(f.gameProfiles), Presents(f.layouts), f.defaultProfileId, f.defaultLayoutId))
    ensures !f.Parsed? || HasNull(f.gameProfiles) || HasNull(f.layouts) ==>
      r == Catalog(Config("platformer", "balanced"), [PlatformerProfile], [BalancedLayout])
  {
    BuiltinCatalogContents();
    if f.Parsed? && !HasNull(f.gameProfiles) && !HasNull(f.layouts) then
      var raw := RawCatalog(Presents(f.gameProfiles), Presents(f.layouts), f.defaultProfileId, f.defaultLayoutId);
      SanitizeCatalogValid(raw);
      SanitizeCatalog(raw)
    else
      SanitizeCatalogValid(RawCatalog([], [], None, None));
      BuiltinCatalog
  }

  /** The built-in catalog holds the `platformer` profile and the `balanced`
      layout, which are also its defaults. */
  lemma {:induction false} BuiltinCatalogContents()
    ensures BuiltinCatalog == Catalog(Config("platformer", "balanced"), [PlatformerProfile], [BalancedLayout])
  {
    EmptyIdNormal();
    SanitizeProfilesEmpty();
    SanitizeLayoutsEmpty();
    BuiltinIds();
    var c := BuiltinCatalog;
    assert c.gameProfiles == [PlatformerProfile];
    assert c.layouts == [BalancedLayout];
    assert c.defaults.gameProfileId == "platformer";
    assert c.defaults.layoutId == "balanced";
  }

  lemma {:induction false} BuiltinIds()
    ensures Ids([PlatformerProfile], ProfileId) == ["platformer"]
    ensures Ids([BalancedLayout], LayoutId) == ["balanced"]
  {
    PlatformerProfileSanitized();
    BalancedLayoutSanitized();
  }

  lemma {:induction false} EmptyIdNormal()
    ensures NormalizeId("") == ""
  {
    NormalizeIdFixed("");
  }

  lemma {:induction false} SanitizeProfilesEmpty()
    ensures SanitizeProfiles([]) == [PlatformerProfile]
  {
    assert ProfileCandidates([]) == [];
  }

  lemma {:induction false} SanitizeLayoutsEmpty()
    ensures SanitizeLayouts([]) == [BalancedLayout]
  {
    assert LayoutCandidates([]) == [];
  }

  /** An id that is truthy but whose string form is empty, such as `[]`,
      skips the positional fallback, so the entry is dropped: a catalog
      whose only profile has the id `[]` gets the built-in profile, while
      the same profile without an id is kept as `profile_1`. */
  lemma {:induction false} ArrayIdDropped(raw: RawProfile)
    ensures SanitizeProfiles([raw.(id := Some(JsonValue.JArr([])))]) == [PlatformerProfile]
    ensures SanitizeProfiles([raw.(id := None)])[0].id == "profile_1"
  {
    EmptyArrayIdEmpty(raw.(id := Some(JsonValue.JArr([]))));
    SanitizeOneProfile(raw.(id := Some(JsonValue.JArr([]))));
    FirstFallbackId();
    SanitizeOneProfile(raw.(id := None));
  }

  /** A one-entry profile list keeps its entry when it has an id, and falls
      back to the built-in profile otherwise. */
  lemma {:induction false} SanitizeOneProfile(raw: RawProfile)
    ensures var c := SanitizeGameProfile(raw, ProfileFallback(0));
      SanitizeProfiles([raw]) == if c.id != "" then [c] else [PlatformerProfile]
  {
    var pc := ProfileCandidates([raw]);
    assert pc == [pc[0]];
    KeepSingle(pc[0], ProfileId);
  }

  lemma {:induction false} EmptyArrayIdEmpty(raw: RawProfile)
    requires raw.id == Some(JsonValue.JArr([]))
    ensures SanitizeGameProfile(raw, ProfileFallback(0)).id == ""
  {
    assert JsonValue.JsToString(JsonValue.JArr([])) == "";
    EmptyIdNormal();
  }

  lemma {:induction false} FirstFallbackId()
    ensures NormalizeId(ProfileFallback(0)) == "profile_1"
  {
    assert NatToString(1) == "1";
    var s := "profile_1";
    assert ProfileFallback(0) == s;
    assert IsNormalId(s) by {
      forall i | 0 <= i < |s| ensures IsIdChar(s[i]) {
      }
    }
    NormalizeIdFixed(s);
  }

  /** The loop over one candidate keeps it exactly when its id is non-empty. */
  lemma {:induction false} KeepSingle<T>(c: T, idOf: T -> string)
    ensures KeepFirstById([], [c], idOf) == if idOf(c) != "" then [c] else []
  {
    assert [c][1..] == [];
    assert Ids([], idOf) == [];
  }

  /** What the loop keeps out of any candidate list. */
  lemma {:induction false} KeepFirstByIdSpec<T>(cands: seq<T>, idOf: T -> string)
    ensures var kept := KeepFirstById([], cands, idOf);
      && Ids(kept, idOf) == FirstOccurrences(Ids(cands, idOf))
      && Distinct(Ids(kept, idOf))
      && (forall i | 0 <= i < |kept| :: idOf(kept[i]) != "")
      && (forall j | 0 <= j < |cands| && idOf(cands[j]) != "" :: idOf(cands[j]) in Ids(kept, idOf))
  {
    var kept := KeepFirstById([], cands, idOf);
    var ids := Ids(cands, idOf);
    KeepFirstByIdIds([], [], cands, idOf);
    EmptyConcat(ids);
    FirstOccurrencesDistinct(ids);
    FirstOccurrencesMembers(ids);
    forall i | 0 <= i < |kept| ensures idOf(kept[i]) != "" {
      assert Ids(kept, idOf)[i] == idOf(kept[i]);
    }
    forall j | 0 <= j < |cands| && idOf(cands[j]) != "" ensures idOf(cands[j]) in Ids(kept, idOf) {
      assert ids[j] == idOf(cands[j]);
    }
  }

  /** Every kept entry is the first candidate with its id. */
  lemma {:induction false} KeepFirstByIdOrigin<T>(cands: seq<T>, idOf: T -> string)
    ensures forall x | x in KeepFirstById([], cands, idOf) ::
      exists j | 0 <= j < |cands| :: FirstWithId(cands, idOf, j) && cands[j] == x
  {
    forall x | x in KeepFirstById([], cands, idOf)
      ensures exists j | 0 <= j < |cands| :: FirstWithId(cands, idOf, j) && cands[j] == x
    {
      KeepFirstByIdFrom([], cands, idOf, x);
    }
  }

  /** The loop keeps nothing exactly when every candidate id is empty. */
  lemma {:induction false} KeepFirstByIdEmpty<T>(cands: seq<T>, idOf: T -> string)
    ensures |KeepFirstById([], cands, idOf)| == 0 <==> forall j | 0 <= j < |cands| :: idOf(cands[j]) == ""
  {
    var kept := KeepFirstById([], cands, idOf);
    KeepFirstByIdSpec(cands, idOf);
    if |kept| > 0 {
      var x := kept[0];
      KeepFirstByIdFrom([], cands, idOf, x);
    }
  }

  /** The loop's result with a built-in entry standing in when nothing
      survives: the built-in alone when every id is empty, and otherwise the
      first candidate for each id, in order, and nothing else. */
  lemma {:induction false} KeepOrDefault<T>(cands: seq<T>, idOf: T -> string, d: T, r: seq<T>)
    requires r == if |KeepFirstById([], cands, idOf)| == 0 then [d] else KeepFirstById([], cands, idOf)
    ensures (forall j | 0 <= j < |cands| :: idOf(cands[j]) == "") ==> r == [d]
    ensures (exists j | 0 <= j < |cands| :: idOf(cands[j]) != "") ==>
      && Ids(r, idOf) == FirstOccurrences(Ids(cands, idOf))
      && forall x | x in r :: exists j | 0 <= j < |cands| :: FirstWithId(cands, idOf, j) && cands[j] == x
  {
    KeepFirstByIdSpec(cands, idOf);
    KeepFirstByIdOrigin(cands, idOf);
    KeepFirstByIdEmpty(cands, idOf);
  }

  /** `sanitizeCatalog` keeps, for every non-empty sanitised id, the first raw
      profile that sanitises to it, in order, and nothing else; the built-in
      profile appears exactly when no raw profile survives. */
  lemma {:induction false} SanitizeProfilesKeeps(raws: seq<RawProfile>)
    ensures var pc := ProfileCandidates(raws);
      var r := SanitizeProfiles(raws);
      && ((forall j | 0 <= j < |pc| :: pc[j].id == "") ==> r == [PlatformerProfile])
      && ((exists j | 0 <= j < |pc| :: pc[j].id != "") ==>
            && Ids(r, ProfileId) == FirstOccurrences(Ids(pc, ProfileId))
            && forall p | p in r :: exists j | 0 <= j < |pc| :: FirstWithId(pc, ProfileId, j) && pc[j] == p)
  {
    KeepOrDefault(ProfileCandidates(raws), ProfileId, PlatformerProfile, SanitizeProfiles(raws));
  }

  /** The same for layouts. */
  lemma {:induction false} SanitizeLayoutsKeeps(raws: seq<RawLayout>)
    ensures var lc := LayoutCandidates(raws);
      var r := SanitizeLayouts(raws);
      && ((forall j | 0 <= j < |lc| :: lc[j].id == "") ==> r == [BalancedLayout])
      && ((exists j | 0 <= j < |lc| :: lc[j].id != "") ==>
            && Ids(r, LayoutId) == FirstOccurrences(Ids(lc, LayoutId))
            && forall l | l in r :: exists j | 0 <= j < |lc| :: FirstWithId(lc, LayoutId, j) && lc[j] == l)
  {
    KeepOrDefault(LayoutCandidates(raws), LayoutId, BalancedLayout, SanitizeLayouts(raws));
  }

  /** Every catalog `sanitizeCatalog` returns is valid. */
  lemma {:induction false} SanitizeCatalogValid(raw: RawCatalog)
    ensures ValidCatalog(SanitizeCatalog(raw))
  {
    SanitizeProfilesValid(raw.gameProfiles);
    SanitizeLayoutsValid(raw.layouts);
  }

  lemma {:induction false} SanitizeProfilesValid(raws: seq<RawProfile>)
    ensures var profiles := SanitizeProfiles(raws);
      && Distinct(Ids(profiles, ProfileId))
      && forall i | 0 <= i < |profiles| :: SanitizedProfile(profiles[i])
  {
    if |KeepFirstById([], ProfileCandidates(raws), ProfileId)| == 0 {
      NoProfileSurvives(raws);
    } else {
      KeptProfilesSanitized(raws);
    }
  }

  lemma {:induction false} NoProfileSurvives(raws: seq<RawProfile>)
    requires |KeepFirstById([], ProfileCandidates(raws), ProfileId)| == 0
    ensures SanitizeProfiles(raws) == [PlatformerProfile]
    ensures Distinct(Ids([PlatformerProfile], ProfileId)) && SanitizedProfile(PlatformerProfile)
  {
    PlatformerProfileSanitized();
  }

  lemma {:induction false} KeptProfilesSanitized(raws: seq<RawProfile>)
    ensures var kept := KeepFirstById([], ProfileCandidates(raws), ProfileId);
      && Distinct(Ids(kept, ProfileId))
      && forall i | 0 <= i < |kept| :: SanitizedProfile(kept[i])
  {
    var pc := ProfileCandidates(raws);
    var kept := KeepFirstById([], pc, ProfileId);
    KeepFirstByIdSpec(pc, ProfileId);
    KeepFirstByIdOrigin(pc, ProfileId);
    forall i | 0 <= i < |kept| ensures SanitizedProfile(kept[i]) {
      assert kept[i] in kept;
      var j :| 0 <= j < |pc| && FirstWithId(pc, ProfileId, j) && pc[j] == kept[i];
      assert pc[j].id != "" ==> SanitizedProfile(pc[j]);
    }
  }

  lemma {:induction false} SanitizeLayoutsValid(raws: seq<RawLayout>)
    ensures var layouts := SanitizeLayouts(raws);
      && Distinct(Ids(layouts, LayoutId))
      && forall i | 0 <= i < |layouts| :: SanitizedLayout(layouts[i])
  {
    if |KeepFirstById([], LayoutCandidates(raws), LayoutId)| == 0 {
      NoLayoutSurvives(raws);
    } else {
      KeptLayoutsSanitized(raws);
    }
  }

  lemma {:induction false} NoLayoutSurvives(raws: seq<RawLayout>)
    requires |KeepFirstById([], LayoutCandidates(raws), LayoutId)| == 0
    ensures SanitizeLayouts(raws) == [BalancedLayout]
    ensures Distinct(Ids([BalancedLayout], LayoutId)) && SanitizedLayout(BalancedLayout)
  {
    BalancedLayoutSanitized();
  }

  lemma {:induction false} KeptLayoutsSanitized(raws: seq<RawLayout>)
    ensures var kept := KeepFirstById([], LayoutCandidates(raws), LayoutId);
      && Distinct(Ids(kept, LayoutId))
      && forall i | 0 <= i < |kept| :: SanitizedLayout(kept[i])
  {
    var lc := LayoutCandidates(raws);
    var kept := KeepFirstById([], lc, LayoutId);
    KeepFirstByIdSpec(lc, LayoutId);
    KeepFirstByIdOrigin(lc, LayoutId);
    forall i | 0 <= i < |kept| ensures SanitizedLayout(kept[i]) {
      assert kept[i] in kept;
      var j :| 0 <= j < |lc| && FirstWithId(lc, LayoutId, j) && lc[j] == kept[i];
      assert lc[j].id != "" ==> SanitizedLayout(lc[j]);
    }
  }

  /** The profiles read back as raw input. */
  function RawOfProfiles(ps: seq<GameProfile>): (r: seq<RawProfile>)
    ensures |r| == |ps| && forall i | 0 <= i < |ps| :: r[i] == RawOfProfile(ps[i])
  {
    seq(|ps|, i requires 0 <= i < |ps| => RawOfProfile(ps[i]))
  }

  function RawOfLayouts(ls: seq<Layout>): (r: seq<RawLayout>)
    ensures |r| == |ls| && forall i | 0 <= i < |ls| :: r[i] == RawOfLayout(ls[i])
  {
    seq(|ls|, i requires 0 <= i < |ls| => RawOfLayout(ls[i]))
  }

  /** A catalog read back as raw input (the source re-sanitises its own
      catalog object after every change). */
  function RawOfCatalog(c: Catalog): RawCatalog {
    RawCatalog(
      RawOfProfiles(c.gameProfiles), RawOfLayouts(c.layouts),
      Some(JsonValue.JStr(c.defaults.gameProfileId)), Some(JsonValue.JStr(c.defaults.layoutId)))
  }

  /** Re-sanitising a valid catalog changes nothing, so `sanitizeCatalog` is
      idempotent. */
  lemma {:induction false} ResanitizeCatalog(c: Catalog)
    requires ValidCatalog(c)
    ensures SanitizeCatalog(RawOfCatalog(c)) == c
  {
    var r := SanitizeCatalog(RawOfCatalog(c));
    ResanitizeLists(c);
    DefaultIdNormal(c);
    DefaultsReadBack(c);
    assert r.defaults == c.defaults;
  }

  lemma {:induction false} ResanitizeLists(c: Catalog)
    requires ValidCatalog(c)
    ensures SanitizeCatalog(RawOfCatalog(c)).gameProfiles == c.gameProfiles
    ensures SanitizeCatalog(RawOfCatalog(c)).layouts == c.layouts
  {
    KeepAllIds(c.gameProfiles, ProfileId);
    KeepAllIds(c.layouts, LayoutId);
    ResanitizeProfiles(c.gameProfiles);
    ResanitizeLayouts(c.layouts);
  }

  /** A catalog's default ids, written back as JSON strings, read as themselves. */
  lemma {:induction false} DefaultsReadBack(c: Catalog)
    ensures JsonValue.JsString(RawOfCatalog(c).defaultProfileId, "") == c.defaults.gameProfileId
    ensures JsonValue.JsString(RawOfCatalog(c).defaultLayoutId, "") == c.defaults.layoutId
  {
  }

  lemma {:induction false} SanitizeCatalogIdempotent(raw: RawCatalog)
    ensures SanitizeCatalog(RawOfCatalog(SanitizeCatalog(raw))) == SanitizeCatalog(raw)
  {
    SanitizeCatalogValid(raw);
    ResanitizeCatalog(SanitizeCatalog(raw));
  }

  /** The hypothesis is the loop's fixed point, which `KeepAllIds` derives
      from distinct non-empty ids. */
  lemma {:induction false} ResanitizeProfiles(ps: seq<GameProfile>)
    requires |ps| > 0 && KeepFirstById([], ps, ProfileId) == [] + ps
    requires forall i | 0 <= i < |ps| :: SanitizedProfile(ps[i])
    ensures SanitizeProfiles(RawOfProfiles(ps)) == ps
  {
    EmptyConcat(ps);
    ProfileCandidatesOfRaw(ps);
    SanitizeProfilesKept(RawOfProfiles(ps));
  }

  lemma {:induction false} SanitizeProfilesKept(raws: seq<RawProfile>)
    requires |KeepFirstById([], ProfileCandidates(raws), ProfileId)| > 0
    ensures SanitizeProfiles(raws) == KeepFirstById([], ProfileCandidates(raws), ProfileId)
  {
  }

  lemma {:induction false} ProfileCandidatesOfRaw(ps: seq<GameProfile>)
    requires forall i | 0 <= i < |ps| :: SanitizedProfile(ps[i])
    ensures ProfileCandidates(RawOfProfiles(ps)) == ps
  {
    var cs := ProfileCandidates(RawOfProfiles(ps));
    forall i | 0 <= i < |ps| ensures cs[i] == ps[i] {
      ResanitizeProfile(ps[i], ProfileFallback(i));
    }
  }


  /** The hypothesis is the loop's fixed point, which `KeepAllIds` derives
      from distinct non-empty ids. */
  lemma {:induction false} ResanitizeLayouts(ls: seq<Layout>)
    requires |ls| > 0 && KeepFirstById([], ls, LayoutId) == [] + ls
    requires forall i | 0 <= i < |ls| :: SanitizedLayout(ls[i])
    ensures SanitizeLayouts(RawOfLayouts(ls)) == ls
  {
    EmptyConcat(ls);
    LayoutCandidatesOfRaw(ls);
    SanitizeLayoutsKept(RawOfLayouts(ls));
  }

  lemma {:induction false} SanitizeLayoutsKept(raws: seq<RawLayout>)
    requires |KeepFirstById([], LayoutCandidates(raws), LayoutId)| > 0
    ensures SanitizeLayouts(raws) == KeepFirstById([], LayoutCandidates(raws), LayoutId)
  {
  }

  lemma {:induction false} LayoutCandidatesOfRaw(ls: seq<Layout>)
    requires forall i | 0 <= i < |ls| :: SanitizedLayout(ls[i])
    ensures LayoutCandidates(RawOfLayouts(ls)) == ls
  {
    var cs := LayoutCandidates(RawOfLayouts(ls));
    forall i | 0 <= i < |ls| ensures cs[i] == ls[i] {
      ResanitizeLayout(ls[i], LayoutFallback(i));
    }
  }


  lemma {:induction false} DefaultIdNormal(c: Catalog)
    requires ValidCatalog(c)
    ensures NormalizeId(c.defaults.gameProfileId) == c.defaults.gameProfileId
    ensures NormalizeId(c.defaults.layoutId) == c.defaults.layoutId
  {
    var i :| 0 <= i < |c.gameProfiles| && ProfileIds(c)[i] == c.defaults.gameProfileId;
    NormalizeIdFixed(c.gameProfiles[i].id);
    var j :| 0 <= j < |c.layouts| && LayoutIds(c)[j] == c.defaults.layoutId;
    NormalizeIdFixed(c.layouts[j].id);
  }

  // ---------------------------------------------------------------------
  // Resolution

  /** `resolveGameProfileId`: the requested id if it names a profile, the
      default otherwise. */
  function ResolveGameProfileId(c: Catalog, value: string): (r: string)
    ensures ValidCatalog(c) ==> r in ProfileIds(c)
    ensures NormalizeId(value) in ProfileIds(c) ==> r == NormalizeId(value)
    ensures NormalizeId(value) !in ProfileIds(c) ==> r == c.defaults.gameProfileId
  {
    var id := NormalizeId(value);
    if id in ProfileIds(c) then id else c.defaults.gameProfileId
  }

  /** `resolveLayoutId`. */
  function ResolveLayoutId(c: Catalog, value: string): (r: string)
    ensures ValidCatalog(c) ==> r in LayoutIds(c)
    ensures NormalizeId(value) in LayoutIds(c) ==> r == NormalizeId(value)
    ensures NormalizeId(value) !in LayoutIds(c) ==> r == c.defaults.layoutId
  {
    var id := NormalizeId(value);
    if id in LayoutIds(c) then id else c.defaults.layoutId
  }

  /** `resolveSessionConfig`: both ids resolved; a missing field is "". */
  function ResolveSessionConfig(c: Catalog, candidate: Config): (r: Config)
    ensures ValidCatalog(c) ==> r.gameProfileId in ProfileIds(c) && r.layoutId in LayoutIds(c)
  {
    Config(ResolveGameProfileId(c, candidate.gameProfileId), ResolveLayoutId(c, candidate.layoutId))
  }

  /** Every id of a valid catalog is normalised, so resolving it gives it back. */
  lemma {:induction false} ResolveMember(c: Catalog, cfg: Config)
    requires ValidCatalog(c)
    requires cfg.gameProfileId in ProfileIds(c) && cfg.layoutId in LayoutIds(c)
    ensures ResolveSessionConfig(c, cfg) == cfg
  {
    var i :| 0 <= i < |c.gameProfiles| && ProfileIds(c)[i] == cfg.gameProfileId;
    NormalizeIdFixed(c.gameProfiles[i].id);
    var j :| 0 <= j < |c.layouts| && LayoutIds(c)[j] == cfg.layoutId;
    NormalizeIdFixed(c.layouts[j].id);
  }

  lemma {:induction false} ResolveSessionConfigIdempotent(c: Catalog, candidate: Config)
    requires ValidCatalog(c)
    ensures ResolveSessionConfig(c, ResolveSessionConfig(c, candidate)) == ResolveSessionConfig(c, candidate)
  {
    ResolveMember(c, ResolveSessionConfig(c, candidate));
  }

  /** The first entry with the given id. */
  function FindIndex<T>(xs: seq<T>, idOf: T -> string, id: string): (r: Option<nat>)
    ensures r.Some? <==> id in Ids(xs, idOf)
    ensures r.Some? ==> r.value < |xs| && idOf(xs[r.value]) == id
    ensures r.Some? ==> forall k | 0 <= k < r.value :: idOf(xs[k]) != id
  {
    if |xs| == 0 then None
    else if idOf(xs[0]) == id then Some(0)
    else match FindIndex(xs[1..], idOf, id)
      case None => None
      case Some(k) => Some(k + 1)
  }

  /** `getGameProfile`: the profile the request resolves to. */
  function GetGameProfile(c: Catalog, profileId: string): (r: Option<GameProfile>)
    ensures ValidCatalog(c) ==> r.Some?
    ensures r.Some? ==> r.value in c.gameProfiles && r.value.id == ResolveGameProfileId(c, profileId)
  {
    match FindIndex(c.gameProfiles, ProfileId, ResolveGameProfileId(c, profileId))
    case None => None
    case Some(i) => Some(c.gameProfiles[i])
  }

  /** `getLayout`. */
  function GetLayout(c: Catalog, layoutId: string): (r: Option<Layout>)
    ensures ValidCatalog(c) ==> r.Some?
    ensures r.Some? ==> r.value in c.layouts && r.value.id == ResolveLayoutId(c, layoutId)
  {
    match FindIndex(c.layouts, LayoutId, ResolveLayoutId(c, layoutId))
    case None => None
    case Some(i) => Some(c.layouts[i])
  }

  // ---------------------------------------------------------------------
  // Create, update, delete

  /** The id an upsert request sanitises to: the request's own id when it is
      truthy, else `profile`. */
  function UpsertId(raw: RawProfile): string {
    EntryId(raw.id, "profile", "profile")
  }

  /** `sanitizeGameProfile(rawProfile, rawProfile.id || "profile")`: the
      fallback is read only when the id is falsy, and is then `profile`. */
  function UpsertProfile(raw: RawProfile): (p: GameProfile)
    ensures p.id == UpsertId(raw)
  {
    SanitizeGameProfile(raw, "profile")
  }

  /** The profile list after storing `p`: in place of the entry with its id,
      or appended when there is none. */
  function StoreProfile(profiles: seq<GameProfile>, p: GameProfile): (r: seq<GameProfile>)
    ensures p.id !in Ids(profiles, ProfileId) ==> r == profiles + [p]
  {
    match FindIndex(profiles, ProfileId, p.id)
    case Some(i) => profiles[i := p]
    case None => profiles + [p]
  }

  /** With unique ids, storing a profile whose id is present replaces that
      one entry and keeps the ids as they were. */
  lemma {:induction false} StoreProfileReplaces(profiles: seq<GameProfile>, p: GameProfile)
    requires Distinct(Ids(profiles, ProfileId)) && p.id in Ids(profiles, ProfileId)
    ensures var r := StoreProfile(profiles, p);
      && Ids(r, ProfileId) == Ids(profiles, ProfileId)
      && |r| == |profiles|
      && p in r
      && forall k | 0 <= k < |profiles| :: r[k] == (if profiles[k].id == p.id then p else profiles[k])
  {
    var i := FindIndex(profiles, ProfileId, p.id).value;
    var r := profiles[i := p];
    assert r[i] == p;
    forall k | 0 <= k < |profiles| ensures r[k] == (if profiles[k].id == p.id then p else profiles[k]) {
      if k != i {
        assert Ids(profiles, ProfileId)[k] == profiles[k].id;
        assert Ids(profiles, ProfileId)[i] == p.id;
      }
    }
    assert Ids(r, ProfileId) == Ids(profiles, ProfileId);
  }

  /** `upsertGameProfile`: the new catalog and the stored profile. */
  function UpsertGameProfile(c: Catalog, raw: RawProfile, mode: Mode): (r: Result<(Catalog, GameProfile), ProfileError>)
    requires Distinct(ProfileIds(c))
    ensures r == Failure(InvalidProfileId) <==> UpsertId(raw) == ""
    ensures r == Failure(ProfileExists) <==>
      UpsertId(raw) != "" && mode == Create && UpsertId(raw) in ProfileIds(c)
    ensures r == Failure(ProfileNotFound) <==>
      UpsertId(raw) != "" && mode == Update && UpsertId(raw) !in ProfileIds(c)
    ensures r.Failure? ==> r.error != LastProfile
    ensures r.Success? ==> r.value.1 == UpsertProfile(raw)
  {
    var sanitized := UpsertProfile(raw);
    if sanitized.id == "" then Failure(InvalidProfileId)
    else
      var existing := sanitized.id in ProfileIds(c);
      if mode == Create && existing then Failure(ProfileExists)
      else if mode == Update && !existing then Failure(ProfileNotFound)
      else
        var stored := c.(gameProfiles := StoreProfile(c.gameProfiles, sanitized));
        Success((SanitizeCatalog(RawOfCatalog(stored)), sanitized))
  }

  /** Whatever the catalog, a successful upsert leaves a valid one. */
  lemma {:induction false} UpsertValid(c: Catalog, raw: RawProfile, mode: Mode)
    requires Distinct(ProfileIds(c))
    ensures var r := UpsertGameProfile(c, raw, mode);
      r.Success? ==> ValidCatalog(r.value.0) && SanitizedProfile(r.value.1)
  {
    var r := UpsertGameProfile(c, raw, mode);
    if r.Success? {
      var stored := c.(gameProfiles := StoreProfile(c.gameProfiles, UpsertProfile(raw)));
      SanitizeCatalogValid(RawOfCatalog(stored));
      SanitizeGameProfileSanitized(raw, "profile");
    }
  }

  /** A successful create on a valid catalog appends the sanitised profile
      and changes nothing else. */
  lemma {:induction false} UpsertCreateAppends(c: Catalog, raw: RawProfile)
    requires ValidCatalog(c)
    requires UpsertGameProfile(c, raw, Create).Success?
    ensures UpsertGameProfile(c, raw, Create).value.0
         == c.(gameProfiles := c.gameProfiles + [UpsertProfile(raw)])
  {
    UpsertIsStore(c, raw, Create);
  }

  /** A successful update on a valid catalog names an existing profile and
      stores the sanitised profile in its place (see `StoreProfile`),
      changing nothing else. */
  lemma {:induction false} UpsertUpdateReplaces(c: Catalog, raw: RawProfile)
    requires ValidCatalog(c)
    requires UpsertGameProfile(c, raw, Update).Success?
    ensures UpsertProfile(raw).id in ProfileIds(c)
    ensures UpsertGameProfile(c, raw, Update).value.0
         == c.(gameProfiles := StoreProfile(c.gameProfiles, UpsertProfile(raw)))
  {
    var p := UpsertProfile(raw);
    assert p.id in ProfileIds(c) by {
      var r := UpsertGameProfile(c, raw, Update);
      assert r != Failure(ProfileNotFound) && r != Failure(InvalidProfileId);
    }
    UpsertIsStore(c, raw, Update);
  }

  /** On a valid catalog the re-sanitising step of an upsert changes nothing. */
  lemma {:induction false} UpsertIsStore(c: Catalog, raw: RawProfile, mode: Mode)
    requires ValidCatalog(c)
    requires UpsertGameProfile(c, raw, mode).Success?
    ensures UpsertGameProfile(c, raw, mode).value
         == (c.(gameProfiles := StoreProfile(c.gameProfiles, UpsertProfile(raw))), UpsertProfile(raw))
  {
    var p := UpsertProfile(raw);
    SanitizeGameProfileSanitized(raw, "profile");
    StoreProfileValid(c, p);
    ResanitizeCatalog(c.(gameProfiles := StoreProfile(c.gameProfiles, p)));
  }

  lemma {:induction false} StoreProfileValid(c: Catalog, p: GameProfile)
    requires ValidCatalog(c) && SanitizedProfile(p)
    ensures ValidCatalog(c.(gameProfiles := StoreProfile(c.gameProfiles, p)))
  {
    if p.id in ProfileIds(c) {
      StoreReplacedValid(c, p);
    } else {
      StoreAppendedValid(c, p);
    }
  }

  lemma {:induction false} StoreReplacedValid(c: Catalog, p: GameProfile)
    requires ValidCatalog(c) && SanitizedProfile(p) && p.id in ProfileIds(c)
    ensures ValidCatalog(c.(gameProfiles := StoreProfile(c.gameProfiles, p)))
  {
    var ps := StoreProfile(c.gameProfiles, p);
    StoreProfileReplaces(c.gameProfiles, p);
    forall k | 0 <= k < |ps| ensures SanitizedProfile(ps[k]) {
      assert ps[k] == (if c.gameProfiles[k].id == p.id then p else c.gameProfiles[k]);
    }
  }

  lemma {:induction false} StoreAppendedValid(c: Catalog, p: GameProfile)
    requires ValidCatalog(c) && SanitizedProfile(p) && p.id !in ProfileIds(c)
    ensures ValidCatalog(c.(gameProfiles := StoreProfile(c.gameProfiles, p)))
  {
    var ps := StoreProfile(c.gameProfiles, p);
    IdsAppend(c.gameProfiles, [p], ProfileId);
    DistinctConcat(ProfileIds(c), [p.id]);
    forall k | 0 <= k < |ps| ensures SanitizedProfile(ps[k]) {
      assert ps[k] == if k < |c.gameProfiles| then c.gameProfiles[k] else p;
    }
  }

  function RemoveAt<T>(xs: seq<T>, i: nat): (r: seq<T>)
    requires i < |xs|
    ensures |r| == |xs| - 1
    ensures forall k | 0 <= k < |r| :: r[k] == if k < i then xs[k] else xs[k + 1]
  {
    xs[..i] + xs[i + 1..]
  }

  /** The catalog after `splice` and the default fix-up, before it is
      re-sanitised. */
  function Spliced(c: Catalog, i: nat): (r: Catalog)
    requires i < |c.gameProfiles| && |c.gameProfiles| > 1
  {
    var rest := RemoveAt(c.gameProfiles, i);
    var defaultId :=
      if c.defaults.gameProfileId in Ids(rest, ProfileId) then c.defaults.gameProfileId else rest[0].id;
    Catalog(c.defaults.(gameProfileId := defaultId), rest, c.layouts)
  }

  /** `deleteGameProfile`: the catalog without the profile. */
  function DeleteGameProfile(c: Catalog, profileId: string): (r: Result<Catalog, ProfileError>)
    ensures r == Failure(ProfileNotFound) <==> NormalizeId(profileId) !in ProfileIds(c)
    ensures r == Failure(LastProfile) <==>
      NormalizeId(profileId) in ProfileIds(c) && |c.gameProfiles| == 1
    ensures r.Failure? ==> r.error in {ProfileNotFound, LastProfile}
  {
    match FindIndex(c.gameProfiles, ProfileId, NormalizeId(profileId))
    case None => Failure(ProfileNotFound)
    case Some(i) =>
      if |c.gameProfiles| == 1 then Failure(LastProfile)
      else Success(SanitizeCatalog(RawOfCatalog(Spliced(c, i))))
  }

  /** Whatever the catalog, a successful delete leaves a valid one. */
  lemma {:induction false} DeleteValid(c: Catalog, profileId: string)
    ensures var r := DeleteGameProfile(c, profileId); r.Success? ==> ValidCatalog(r.value)
  {
    if DeleteGameProfile(c, profileId).Success? {
      var i := FindIndex(c.gameProfiles, ProfileId, NormalizeId(profileId)).value;
      SanitizeCatalogValid(RawOfCatalog(Spliced(c, i)));
    }
  }

  /** Splicing entry `i` out of a valid catalog with several profiles leaves
      a valid catalog whose ids are the others, in order. */
  lemma {:induction false} SplicedValid(c: Catalog, i: nat)
    requires ValidCatalog(c) && i < |c.gameProfiles| && |c.gameProfiles| > 1
    ensures var s := Spliced(c, i);
      && ValidCatalog(s)
      && ProfileIds(s) == RemoveAt(ProfileIds(c), i)
      && (c.defaults.gameProfileId != ProfileIds(c)[i] ==> s.defaults.gameProfileId == c.defaults.gameProfileId)
      && (c.defaults.gameProfileId == ProfileIds(c)[i] ==> s.defaults.gameProfileId == s.gameProfiles[0].id)
  {
    SplicedIds(c, i);
    SplicedEntries(c, i);
    SplicedDefault(c, i);
    DistinctRemove(ProfileIds(c), i);
  }

  lemma {:induction false} SplicedDefault(c: Catalog, i: nat)
    requires i < |c.gameProfiles| && |c.gameProfiles| > 1
    requires c.defaults.gameProfileId in ProfileIds(c) && Distinct(ProfileIds(c))
    ensures var s := Spliced(c, i);
      && s.defaults.gameProfileId in ProfileIds(s)
      && (c.defaults.gameProfileId != ProfileIds(c)[i] ==> s.defaults.gameProfileId == c.defaults.gameProfileId)
      && (c.defaults.gameProfileId == ProfileIds(c)[i] ==> s.defaults.gameProfileId == s.gameProfiles[0].id)
  {
    var ids := ProfileIds(c);
    SplicedIds(c, i);
    DistinctRemove(ids, i);
    if c.defaults.gameProfileId != ids[i] {
      RemoveAtKeeps(ids, i, c.defaults.gameProfileId);
    }
  }

  /** Removing one position keeps every value found elsewhere. */
  lemma {:induction false} RemoveAtKeeps<T>(xs: seq<T>, i: nat, x: T)
    requires i < |xs| && x in xs && x != xs[i]
    ensures x in RemoveAt(xs, i)
  {
    var k :| 0 <= k < |xs| && xs[k] == x;
    assert RemoveAt(xs, i)[if k < i then k else k - 1] == x;
  }

  lemma {:induction false} SplicedIds(c: Catalog, i: nat)
    requires i < |c.gameProfiles| && |c.gameProfiles| > 1
    ensures ProfileIds(Spliced(c, i)) == RemoveAt(ProfileIds(c), i)
    ensures Spliced(c, i).gameProfiles[0].id == ProfileIds(Spliced(c, i))[0]
  {
  }

  lemma {:induction false} SplicedEntries(c: Catalog, i: nat)
    requires i < |c.gameProfiles| && |c.gameProfiles| > 1
    requires forall k | 0 <= k < |c.gameProfiles| :: SanitizedProfile(c.gameProfiles[k])
    ensures var rest := Spliced(c, i).gameProfiles;
      forall k | 0 <= k < |rest| :: SanitizedProfile(rest[k])
  {
    var rest := Spliced(c, i).gameProfiles;
    forall k | 0 <= k < |rest| ensures SanitizedProfile(rest[k]) {
      assert rest[k] == c.gameProfiles[if k < i then k else k + 1];
    }
  }

  /** A successful delete on a valid catalog removes exactly the named
      profile, keeps the default when it survives and otherwise falls back
      to the first remaining profile, and leaves the layouts alone. */
  lemma {:induction false} DeleteRemoves(c: Catalog, profileId: string)
    requires ValidCatalog(c)
    requires DeleteGameProfile(c, profileId).Success?
    ensures var c' := DeleteGameProfile(c, profileId).value;
      exists i | 0 <= i < |c.gameProfiles| ::
        && c.gameProfiles[i].id == NormalizeId(profileId)
        && c'.gameProfiles == RemoveAt(c.gameProfiles, i)
        && NormalizeId(profileId) !in ProfileIds(c')
        && c'.layouts == c.layouts
        && c'.defaults.layoutId == c.defaults.layoutId
        && (c.defaults.gameProfileId != NormalizeId(profileId) ==> c'.defaults.gameProfileId == c.defaults.gameProfileId)
        && (c.defaults.gameProfileId == NormalizeId(profileId) ==> c'.defaults.gameProfileId == c'.gameProfiles[0].id)
  {
    var i := FindIndex(c.gameProfiles, ProfileId, NormalizeId(profileId)).value;
    SplicedValid(c, i);
    DistinctRemove(ProfileIds(c), i);
    ResanitizeCatalog(Spliced(c, i));
  }

  /** Removing one entry of a duplicate-free sequence removes that value. */
  lemma {:induction false} DistinctRemove(s: seq<string>, i: nat)
    requires i < |s| && Distinct(s)
    ensures Distinct(RemoveAt(s, i))
    ensures s[i] !in RemoveAt(s, i)
  {
    var t := RemoveAt(s, i);
    forall a, b | 0 <= a < b < |t| ensures t[a] != t[b] {
      var a' := if a < i then a else a + 1;
      var b' := if b < i then b else b + 1;
      assert t[a] == s[a'] && t[b] == s[b'];
    }
  }
}
