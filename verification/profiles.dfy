/** Normalisation of ids, token and action lists, keyboard / virtual-pad maps,
    layouts and game profiles (lib/profiles.js). An entry's `id` is the
    decoded JSON value, coerced as the source does; the other values the
    source passes through `String(value || "")` are modelled as the
    resulting strings. */
module Profiles {
  import opened Wrappers
  import opened Text
  import JsonValue

  /** The controller inputs a profile may map, in the source's order. */
  const ProfileInputs: seq<string> :=
    ["up", "down", "left", "right", "a", "b", "x", "y",
     "lb", "rb", "lt", "rt", "start", "select", "ls", "rs"]

  predicate IsIdChar(c: char) { IsLower(c) || IsDigit(c) || c == '_' || c == '-' }
  predicate IsTokenChar(c: char) { IsLower(c) || IsDigit(c) || c == '_' }

  /** An id as `normalizeId` produces it. */
  predicate IsNormalId(s: string) { |s| <= 42 && All(s, IsIdChar) }

  /** `normalizeId`: lower-cased, only `[a-z0-9_-]`, at most 42 characters,
      in one pass; `NormalizeIdPipeline` shows it equals the source's trim,
      lower-case, filter and slice. */
  function NormalizeId(value: string): (r: string)
    ensures IsNormalId(r)
  {
    MapPrefix(value, 42, LowerChar, IsIdChar)
  }

  /** Id and token characters are neither whitespace nor upper case. */
  lemma {:induction false} IdCharPlain(c: char)
    requires IsIdChar(c)
    ensures !IsJsSpace(c) && !IsUpper(c)
  {
  }

  /** `normalizeId` as written: trim, lower-case, drop everything outside
      `[a-z0-9_-]`, keep 42 characters. */
  lemma {:induction false} NormalizeIdPipeline(value: string)
    ensures NormalizeId(value) == Take(Keep(Lower(JsTrim(value)), IsIdChar), 42)
  {
    MapPrefixTrim(value, 42, LowerChar, IsIdChar, IsJsSpace);
    MapPrefixKeep(JsTrim(value), Lower(JsTrim(value)), 42, LowerChar, IsIdChar);
  }

  /** Exactly the normal ids are left unchanged by `NormalizeId`. */
  lemma {:induction false} NormalizeIdFixed(s: string)
    ensures NormalizeId(s) == s <==> IsNormalId(s)
  {
    if IsNormalId(s) {
      forall i | 0 <= i < |s| ensures IsIdChar(s[i]) && LowerChar(s[i]) == s[i] {
        IdCharPlain(s[i]);
      }
      MapPrefixFixed(s, 42, LowerChar, IsIdChar);
    }
  }

  lemma {:induction false} NormalizeIdIdempotent(s: string)
    ensures NormalizeId(NormalizeId(s)) == NormalizeId(s)
  {
    NormalizeIdFixed(NormalizeId(s));
  }

  /** `normalizeText`: the trimmed value, or `fallback` when that is empty.
      A value that is all whitespace gives the fallback; any other gives a
      clean string that the value holds with only whitespace around it. */
  function NormalizeText(value: string, fallback: string): (r: string)
    ensures All(value, IsJsSpace) ==> r == fallback
    ensures !All(value, IsJsSpace) ==> IsCleanText(r) && Padded(value, r, IsJsSpace)
    ensures IsCleanText(value) ==> r == value
    ensures JsTrim(value) != "" ==> r == JsTrim(value)
    ensures JsTrim(value) == "" ==> r == fallback
  {
    CleanTrimmed(value);
    JsTrimShape(value);
    var t := JsTrim(value);
    if t != "" then t else fallback
  }

  lemma {:induction false} JsTrimShape(value: string)
    ensures JsTrim(value) == "" <==> All(value, IsJsSpace)
    ensures Padded(value, JsTrim(value), IsJsSpace)
    ensures JsTrim(value) != "" ==> IsCleanText(JsTrim(value))
  {
    TrimShape(value, IsJsSpace);
  }

  lemma {:induction false} CleanTrimmed(value: string)
    ensures IsCleanText(value) ==> JsTrim(value) == value
  {
    if IsCleanText(value) {
      TrimFixed(value, IsJsSpace);
    }
  }

  /** A non-empty string with no surrounding whitespace: what `NormalizeText`
      returns whenever its fallback is one. */
  predicate IsCleanText(s: string) {
    s != "" && !IsJsSpace(s[0]) && !IsJsSpace(s[|s| - 1])
  }

  lemma {:induction false} NormalizeTextClean(value: string, fallback: string)
    ensures IsCleanText(fallback) ==> IsCleanText(NormalizeText(value, fallback))
    ensures IsCleanText(value) ==> NormalizeText(value, fallback) == value
  {
    if IsCleanText(value) {
      TrimFixed(value, IsJsSpace);
    }
  }

  /** `normalizeKeyboardToken` and `normalizeVirtualAction` (the same
      expression): trimmed, lower-cased, only `[a-z0-9_]`. */
  function NormalizeToken(value: string): (r: string)
    ensures All(r, IsTokenChar)
  {
    Keep(Lower(JsTrim(value)), IsTokenChar)
  }

  predicate IsToken(s: string) { s != "" && All(s, IsTokenChar) }

  lemma {:induction false} NormalizeTokenFixed(s: string)
    ensures All(s, IsTokenChar) ==> NormalizeToken(s) == s
  {
    if All(s, IsTokenChar) {
      if |s| > 0 {
        IdCharPlain(s[0]);
        IdCharPlain(s[|s| - 1]);
      }
      TrimFixed(s, IsJsSpace);
      forall i | 0 <= i < |s| ensures !IsUpper(s[i]) {
        IdCharPlain(s[i]);
      }
      LowerFixed(s);
      KeepAll(s, IsTokenChar);
    }
  }

  // ---------------------------------------------------------------------
  // Token and action lists

  /** A candidate list: missing or falsy, one value, or an array of values. */
  datatype TokenSource = Absent | One(value: string) | Many(values: seq<string>)

  function SourceValues(c: TokenSource): seq<string> {
    match c
    case Absent => []
    case One(v) => if v == "" then [] else [v]
    case Many(vs) => vs
  }

  function MapNormalize(values: seq<string>): (r: seq<string>)
    ensures |r| == |values|
    ensures forall i | 0 <= i < |values| :: r[i] == NormalizeToken(values[i])
  {
    if |values| == 0 then [] else [NormalizeToken(values[0])] + MapNormalize(values[1..])
  }

  predicate Distinct<T(==)>(s: seq<T>) {
    forall i, j | 0 <= i < j < |s| :: s[i] != s[j]
  }

  /** Reference definition: the non-empty entries of `s`, each kept at its
      first occurrence only, in order. */
  function FirstOccurrences(s: seq<string>): seq<string> {
    if |s| == 0 then []
    else
      var init := s[..|s| - 1];
      var last := s[|s| - 1];
      FirstOccurrences(init) + (if last != "" && last !in init then [last] else [])
  }

  lemma {:induction false} FirstOccurrencesMembers(s: seq<string>)
    ensures forall x :: x in FirstOccurrences(s) <==> x != "" && x in s
  {
    if |s| > 0 {
      var init := s[..|s| - 1];
      FirstOccurrencesMembers(init);
      assert s == init + [s[|s| - 1]];
    }
  }

  lemma {:induction false} FirstOccurrencesDistinct(s: seq<string>)
    ensures Distinct(FirstOccurrences(s))
    ensures forall i | 0 <= i < |FirstOccurrences(s)| :: FirstOccurrences(s)[i] != ""
  {
    if |s| > 0 {
      var init := s[..|s| - 1];
      FirstOccurrencesDistinct(init);
      FirstOccurrencesMembers(init);
      var last := s[|s| - 1];
      if last != "" && last !in init {
        DistinctConcat(FirstOccurrences(init), [last]);
      }
    }
  }

  /** Two duplicate-free sequences with no common element concatenate to a
      duplicate-free sequence. */
  lemma {:induction false} DistinctConcat<T>(a: seq<T>, b: seq<T>)
    requires Distinct(a) && Distinct(b)
    requires forall x | x in b :: x !in a
    ensures Distinct(a + b)
  {
    forall i, j | 0 <= i < j < |a + b| ensures (a + b)[i] != (a + b)[j] {
      if j >= |a| && i < |a| {
        assert (a + b)[j] == b[j - |a|];
        assert (a + b)[j] in b;
      }
    }
  }

  /** The source's loop: append each non-empty entry not yet collected. */
  function Collect(acc: seq<string>, s: seq<string>): seq<string>
    decreases |s|
  {
    if |s| == 0 then acc
    else Collect(if s[0] != "" && s[0] !in acc then acc + [s[0]] else acc, s[1..])
  }

  /** Appending one entry to the source appends it to its first
      occurrences exactly when it is new and non-empty. */
  lemma {:induction false} FirstOccurrencesSnoc(p: seq<string>, x: string)
    ensures var fp := FirstOccurrences(p);
      FirstOccurrences(p + [x]) == if x != "" && x !in fp then fp + [x] else fp
  {
    var p' := p + [x];
    FirstOccurrencesMembers(p);
    assert p'[..|p'| - 1] == p;
    assert p'[|p'| - 1] == x;
    assert FirstOccurrences(p) + [] == FirstOccurrences(p);
  }

  lemma {:induction false} CollectIsFirstOccurrences(p: seq<string>, q: seq<string>)
    ensures Collect(FirstOccurrences(p), q) == FirstOccurrences(p + q)
    decreases |q|
  {
    if |q| == 0 {
      assert p + q == p;
    } else {
      var p', q' := p + [q[0]], q[1..];
      var fp := FirstOccurrences(p);
      var next := if q[0] != "" && q[0] !in fp then fp + [q[0]] else fp;
      assert q == [q[0]] + q';
      assert p + q == p' + q';
      assert Collect(fp, q) == Collect(next, q');
      FirstOccurrencesSnoc(p, q[0]);
      CollectIsFirstOccurrences(p', q');
    }
  }

  /** `normalizeTokenList` / `normalizeActionList`: the normalised non-empty
      entries, each at its first occurrence, in order. */
  function NormalizeList(c: TokenSource): (r: seq<string>)
    ensures r == FirstOccurrences(MapNormalize(SourceValues(c)))
  {
    var ns := MapNormalize(SourceValues(c));
    CollectFromEmpty(ns);
    Collect([], ns)
  }

  /** The loop run from nothing collects the first occurrences. */
  lemma {:induction false} CollectFromEmpty(s: seq<string>)
    ensures Collect([], s) == FirstOccurrences(s)
  {
    CollectIsFirstOccurrences([], s);
    assert [] + s == s;
  }

  /** A normalised list holds non-empty tokens, no duplicates, and every
      non-empty normalised entry of its source. */
  lemma {:induction false} NormalizeListSpec(c: TokenSource)
    ensures Distinct(NormalizeList(c))
    ensures forall i | 0 <= i < |NormalizeList(c)| :: IsToken(NormalizeList(c)[i])
    ensures forall t :: t in NormalizeList(c) <==> t != "" && t in MapNormalize(SourceValues(c))
  {
    var ns := MapNormalize(SourceValues(c));
    FirstOccurrencesDistinct(ns);
    FirstOccurrencesMembers(ns);
    forall i | 0 <= i < |NormalizeList(c)| ensures IsToken(NormalizeList(c)[i]) {
      var t := NormalizeList(c)[i];
      assert t in ns;
    }
  }

  /** Re-normalising a list that is already normal gives it back unchanged. */
  lemma {:induction false} NormalizeListFixed(ts: seq<string>)
    requires Distinct(ts) && forall i | 0 <= i < |ts| :: IsToken(ts[i])
    ensures NormalizeList(Many(ts)) == ts
    ensures |ts| == 1 ==> NormalizeList(One(ts[0])) == ts
  {
    MapNormalizeFixed(ts);
    FirstOccurrencesFixed(ts);
    if |ts| == 1 {
      MapNormalizeFixed([ts[0]]);
    }
  }

  lemma {:induction false} MapNormalizeFixed(ts: seq<string>)
    requires forall i | 0 <= i < |ts| :: All(ts[i], IsTokenChar)
    ensures MapNormalize(ts) == ts
  {
    forall i | 0 <= i < |ts| ensures MapNormalize(ts)[i] == ts[i] {
      NormalizeTokenFixed(ts[i]);
    }
  }

  lemma {:induction false} FirstOccurrencesFixed(s: seq<string>)
    requires Distinct(s) && forall i | 0 <= i < |s| :: s[i] != ""
    ensures FirstOccurrences(s) == s
  {
    if |s| > 0 {
      var init := s[..|s| - 1];
      FirstOccurrencesFixed(init);
      assert s[|s| - 1] !in init;
      assert init + [s[|s| - 1]] == s;
    }
  }

  // ---------------------------------------------------------------------
  // Keyboard and virtual-pad maps

  /** A keyboard binding: one token stored as a string, several as a list. */
  datatype KeyBinding = SingleKey(token: string) | KeyList(tokens: seq<string>)

  type KeyboardMap = map<string, KeyBinding>
  type VirtualMap = map<string, seq<string>>

  function SourceAt(candidate: map<string, TokenSource>, input: string): TokenSource {
    if input in candidate then candidate[input] else Absent
  }

  /** The tokens a binding lists. */
  function BindingTokens(b: KeyBinding): seq<string> {
    match b
    case SingleKey(t) => [t]
    case KeyList(ts) => ts
  }

  function Binding(ts: seq<string>): KeyBinding
    requires |ts| > 0
  {
    if |ts| == 1 then SingleKey(ts[0]) else KeyList(ts)
  }

  /** `sanitizeKeyboardMap`. */
  function SanitizeKeyboardMap(candidate: map<string, TokenSource>): KeyboardMap {
    map k | k in ProfileInputs && |NormalizeList(SourceAt(candidate, k))| > 0 ::
      Binding(NormalizeList(SourceAt(candidate, k)))
  }

  /** Some entry of `vs` normalises to `t`. */
  predicate NormalizesTo(vs: seq<string>, t: string) {
    exists i | 0 <= i < |vs| :: NormalizeToken(vs[i]) == t
  }

  /** Some entry of `vs` normalises to a token. */
  predicate HasToken(vs: seq<string>) {
    exists i | 0 <= i < |vs| :: NormalizeToken(vs[i]) != ""
  }

  lemma {:induction false} MapNormalizeMembers(vs: seq<string>)
    ensures forall t :: t in MapNormalize(vs) <==> NormalizesTo(vs, t)
  {
    var ns := MapNormalize(vs);
    forall t | t in ns ensures NormalizesTo(vs, t) {
      var j :| 0 <= j < |ns| && ns[j] == t;
      assert NormalizeToken(vs[j]) == t;
    }
    forall t | NormalizesTo(vs, t) ensures t in ns {
      var j :| 0 <= j < |vs| && NormalizeToken(vs[j]) == t;
      assert ns[j] == t;
    }
  }

  /** The tokens of a normalised list are exactly the non-empty
      normalisations of the source's entries. */
  lemma {:induction false} NormalizeListMembers(c: TokenSource)
    ensures forall t :: t in NormalizeList(c) <==> t != "" && NormalizesTo(SourceValues(c), t)
    ensures |NormalizeList(c)| > 0 <==> HasToken(SourceValues(c))
  {
    var vs := SourceValues(c);
    var ts := NormalizeList(c);
    NormalizeListSpec(c);
    MapNormalizeMembers(vs);
    if HasToken(vs) {
      var i :| 0 <= i < |vs| && NormalizeToken(vs[i]) != "";
      assert NormalizesTo(vs, NormalizeToken(vs[i]));
      assert NormalizeToken(vs[i]) in ts;
    }
    if |ts| > 0 {
      assert ts[0] in ts;
      var i :| 0 <= i < |vs| && NormalizeToken(vs[i]) == ts[0];
      assert NormalizeToken(vs[i]) != "";
    }
  }

  /** A sanitised keyboard map has only profile inputs as keys. An input is
      bound exactly when one of its raw entries normalises to a token; its
      binding lists, without duplicates, exactly those tokens, bare when
      there is one and as a list when there are several. */
  lemma {:induction false} SanitizeKeyboardMapSpec(candidate: map<string, TokenSource>)
    ensures forall k | k in SanitizeKeyboardMap(candidate) :: k in ProfileInputs
    ensures forall k | k in ProfileInputs ::
      var vs := SourceValues(SourceAt(candidate, k));
      var r := SanitizeKeyboardMap(candidate);
      && (k in r <==> HasToken(vs))
      && (k in r ==> Distinct(BindingTokens(r[k])) && (r[k].SingleKey? <==> |BindingTokens(r[k])| == 1))
      && (k in r ==> forall t :: t in BindingTokens(r[k]) <==> t != "" && NormalizesTo(vs, t))
  {
    forall k | k in ProfileInputs
      ensures var vs := SourceValues(SourceAt(candidate, k));
        var r := SanitizeKeyboardMap(candidate);
        && (k in r <==> HasToken(vs))
        && (k in r ==> Distinct(BindingTokens(r[k])) && (r[k].SingleKey? <==> |BindingTokens(r[k])| == 1))
        && (k in r ==> forall t :: t in BindingTokens(r[k]) <==> t != "" && NormalizesTo(vs, t))
    {
      NormalizeListMembers(SourceAt(candidate, k));
      NormalizeListSpec(SourceAt(candidate, k));
    }
  }

  /** `sanitizeVirtualMap`. */
  function SanitizeVirtualMap(candidate: map<string, TokenSource>): VirtualMap {
    map k | k in ProfileInputs && |NormalizeList(SourceAt(candidate, k))| > 0 ::
      NormalizeList(SourceAt(candidate, k))
  }

  /** A sanitised virtual-pad map has only profile inputs as keys. An input
      is present exactly when one of its raw entries normalises to a token,
      and its list holds exactly those tokens, without duplicates. */
  lemma {:induction false} SanitizeVirtualMapSpec(candidate: map<string, TokenSource>)
    ensures forall k | k in SanitizeVirtualMap(candidate) :: k in ProfileInputs
    ensures forall k | k in ProfileInputs ::
      var vs := SourceValues(SourceAt(candidate, k));
      var r := SanitizeVirtualMap(candidate);
      && (k in r <==> HasToken(vs))
      && (k in r ==> Distinct(r[k]))
      && (k in r ==> forall t :: t in r[k] <==> t != "" && NormalizesTo(vs, t))
  {
    forall k | k in ProfileInputs
      ensures var vs := SourceValues(SourceAt(candidate, k));
        var r := SanitizeVirtualMap(candidate);
        && (k in r <==> HasToken(vs))
        && (k in r ==> Distinct(r[k]))
        && (k in r ==> forall t :: t in r[k] <==> t != "" && NormalizesTo(vs, t))
    {
      NormalizeListMembers(SourceAt(candidate, k));
      NormalizeListSpec(SourceAt(candidate, k));
    }
  }

  // ---------------------------------------------------------------------
  // Layouts

  const PanelCanon: seq<string> := ["stick", "action"]
  const GridCanon: seq<string> := ["x", "y", "a", "b"]

  /** The entries of `canon` that `chosen` lacks, in `canon`'s order. */
  function Missing(canon: seq<string>, chosen: seq<string>): (r: seq<string>)
    ensures forall x :: x in r <==> x in canon && x !in chosen
    ensures Distinct(canon) ==> Distinct(r)
  {
    if |canon| == 0 then []
    else (if canon[0] !in chosen then [canon[0]] else []) + Missing(canon[1..], chosen)
  }

  lemma {:induction false} MissingNone(canon: seq<string>, chosen: seq<string>)
    requires forall x | x in canon :: x in chosen
    ensures Missing(canon, chosen) == []
  {
    if |canon| > 0 {
      assert canon[0] in canon;
      MissingNone(canon[1..], chosen);
    }
  }

  /** Each raw entry trimmed and lower-cased, or "" when it is not one of `canon`. */
  function ValidEntries(raw: seq<string>, canon: seq<string>): (r: seq<string>)
    ensures |r| == |raw|
    ensures forall i | 0 <= i < |r| :: r[i] == "" || r[i] in canon
  {
    if |raw| == 0 then []
    else
      var key := Lower(JsTrim(raw[0]));
      [if key in canon then key else ""] + ValidEntries(raw[1..], canon)
  }

  /** The valid raw entries at their first occurrence, in their original
      order; the raw list defaults to `canon` itself. */
  function OrderLead(raw: Option<seq<string>>, canon: seq<string>): seq<string> {
    FirstOccurrences(ValidEntries(raw.GetOr(canon), canon))
  }

  /** The ordering rule shared by `panelOrder` and `buttonGrid`: the source's
      collecting loop, then every entry of `canon` still missing. */
  function SanitizeOrder(raw: Option<seq<string>>, canon: seq<string>): (r: seq<string>)
    ensures r == OrderLead(raw, canon) + Missing(canon, OrderLead(raw, canon))
  {
    var vs := ValidEntries(raw.GetOr(canon), canon);
    CollectIsFirstOccurrences([], vs);
    assert [] + vs == vs;
    var chosen := Collect([], vs);
    chosen + Missing(canon, chosen)
  }

  /** The result of `SanitizeOrder` is a permutation of `canon`. */
  lemma {:induction false} SanitizeOrderPermutation(raw: Option<seq<string>>, canon: seq<string>)
    requires Distinct(canon) && forall i | 0 <= i < |canon| :: canon[i] != ""
    ensures Distinct(SanitizeOrder(raw, canon))
    ensures forall x :: x in SanitizeOrder(raw, canon) <==> x in canon
    ensures |SanitizeOrder(raw, canon)| == |canon|
  {
    var vs := ValidEntries(raw.GetOr(canon), canon);
    var lead := OrderLead(raw, canon);
    FirstOccurrencesDistinct(vs);
    FirstOccurrencesMembers(vs);
    assert forall x | x in lead :: x in canon;
    var r := SanitizeOrder(raw, canon);
    DistinctConcat(lead, Missing(canon, lead));
    DistinctSameElementsSameLength(r, canon);
  }

  /** Two duplicate-free sequences with the same elements have the same length. */
  lemma {:induction false} DistinctSameElementsSameLength<T>(a: seq<T>, b: seq<T>)
    requires Distinct(a) && Distinct(b)
    requires forall x :: x in a <==> x in b
    ensures |a| == |b|
  {
    DistinctCard(a);
    DistinctCard(b);
    assert (set x | x in a) == (set x | x in b);
  }

  lemma {:induction false} DistinctCard<T>(a: seq<T>)
    requires Distinct(a)
    ensures |set x | x in a| == |a|
  {
    if |a| > 0 {
      var init := a[..|a| - 1];
      DistinctCard(init);
      assert (set x | x in a) == (set x | x in init) + {a[|a| - 1]};
      assert a[|a| - 1] !in init;
    }
  }

  /** A label group: each key's fallback text. */
  type LabelDefaults = map<string, string>

  const ButtonLabelDefaults: LabelDefaults := map["a" := "A", "b" := "B", "x" := "X", "y" := "Y"]
  const DpadLabelDefaults: LabelDefaults :=
    map["up" := "UP", "down" := "DN", "left" := "LT", "right" := "RT"]
  const UtilityLabelDefaults: LabelDefaults :=
    map["lb" := "LB", "rb" := "RB", "lt" := "LT", "rt" := "RT",
        "start" := "START", "select" := "SELECT", "ls" := "L3", "rs" := "R3"]

  function LabelAt(raw: map<string, string>, key: string): string {
    if key in raw then raw[key] else ""
  }

  /** Every key of the group, its raw text normalised with the key's fallback;
      keys outside the group are dropped. */
  function SanitizeLabels(raw: map<string, string>, defaults: LabelDefaults): (r: map<string, string>)
    ensures r.Keys == defaults.Keys
    ensures forall k | k in r :: r[k] == NormalizeText(LabelAt(raw, k), defaults[k])
  {
    map k | k in defaults :: NormalizeText(LabelAt(raw, k), defaults[k])
  }

  /** A missing or blank label takes the default, a clean one is kept as
      written, and any other loses only its surrounding whitespace. */
  lemma {:induction false} SanitizeLabelsSpec(raw: map<string, string>, defaults: LabelDefaults)
    ensures var r := SanitizeLabels(raw, defaults);
      && r.Keys == defaults.Keys
      && (forall k | k in r :: (k !in raw || All(raw[k], IsJsSpace)) ==> r[k] == defaults[k])
      && (forall k | k in r && k in raw :: IsCleanText(raw[k]) ==> r[k] == raw[k])
      && (forall k | k in r && k in raw && !All(raw[k], IsJsSpace) :: IsCleanText(r[k]) && Padded(raw[k], r[k], IsJsSpace))
  {
  }

  datatype RawLayout = RawLayout(
    id: Option<JsonValue.Json>,
    name: string,
    description: string,
    panelOrder: Option<seq<string>>,
    buttonGrid: Option<seq<string>>,
    buttonLabels: map<string, string>,
    dpadLabels: map<string, string>,
    utilityLabels: map<string, string>)

  datatype Layout = Layout(
    id: string,
    name: string,
    description: string,
    panelOrder: seq<string>,
    buttonGrid: seq<string>,
    buttonLabels: map<string, string>,
    dpadLabels: map<string, string>,
    utilityLabels: map<string, string>)

  /** `normalizeId(entry.id || fallbackId || last)`: the raw id's string
      form when the id is truthy, else the fallback id or, when that is empty
      too, `last`. A truthy id whose string form is empty, such as `[]`,
      gives the empty id: the fallback is skipped. */
  function EntryId(raw: Option<JsonValue.Json>, fallbackId: string, last: string): (r: string)
    ensures !JsonValue.JsTruthy(raw) && fallbackId != "" ==> r == NormalizeId(fallbackId)
    ensures !JsonValue.JsTruthy(raw) && fallbackId == "" ==> r == NormalizeId(last)
    ensures JsonValue.JsTruthy(raw) ==> r == NormalizeId(JsonValue.JsToString(raw.value))
  {
    NormalizeId(JsonValue.JsString(raw, if fallbackId != "" then fallbackId else last))
  }

  /** `sanitizeLayout`. */
  function SanitizeLayout(layout: RawLayout, fallbackId: string): Layout {
    var id := EntryId(layout.id, fallbackId, "layout");
    Layout(
      id,
      NormalizeText(layout.name, Upper(id)),
      NormalizeText(layout.description, "Custom layout"),
      SanitizeOrder(layout.panelOrder, PanelCanon),
      SanitizeOrder(layout.buttonGrid, GridCanon),
      SanitizeLabels(layout.buttonLabels, ButtonLabelDefaults),
      SanitizeLabels(layout.dpadLabels, DpadLabelDefaults),
      SanitizeLabels(layout.utilityLabels, UtilityLabelDefaults))
  }

  /** `sanitizeLayout`'s panel order is a permutation of [stick, action] and its
      button grid a permutation of [x, y, a, b], each led by the valid raw
      entries in their original order. */
  lemma {:induction false} SanitizeLayoutOrders(layout: RawLayout, fallbackId: string)
    ensures var r := SanitizeLayout(layout, fallbackId);
      && Distinct(r.panelOrder) && |r.panelOrder| == 2
      && (forall x :: x in r.panelOrder <==> x in PanelCanon)
      && Distinct(r.buttonGrid) && |r.buttonGrid| == 4
      && (forall x :: x in r.buttonGrid <==> x in GridCanon)
      && r.panelOrder[..|OrderLead(layout.panelOrder, PanelCanon)|] == OrderLead(layout.panelOrder, PanelCanon)
      && r.buttonGrid[..|OrderLead(layout.buttonGrid, GridCanon)|] == OrderLead(layout.buttonGrid, GridCanon)
  {
    SanitizeOrderPermutation(layout.panelOrder, PanelCanon);
    SanitizeOrderPermutation(layout.buttonGrid, GridCanon);
  }

  // ---------------------------------------------------------------------
  // Game profiles

  datatype RawProfile = RawProfile(
    id: Option<JsonValue.Json>,
    name: string,
    description: string,
    keyboardMap: map<string, TokenSource>,
    virtualMap: map<string, TokenSource>)

  datatype GameProfile = GameProfile(
    id: string,
    name: string,
    description: string,
    keyboardMap: KeyboardMap,
    virtualMap: VirtualMap)

  /** `sanitizeGameProfile`. */
  function SanitizeGameProfile(profile: RawProfile, fallbackId: string): GameProfile {
    var id := EntryId(profile.id, fallbackId, "profile");
    GameProfile(
      id,
      NormalizeText(profile.name, Upper(id)),
      NormalizeText(profile.description, "Custom profile"),
      SanitizeKeyboardMap(profile.keyboardMap),
      SanitizeVirtualMap(profile.virtualMap))
  }

  // ---------------------------------------------------------------------
  // Re-sanitising what was already sanitised

  /** The upper-cased form of a non-empty normal id is clean text, so it can
      serve as a name fallback. */
  lemma {:induction false} UpperIdClean(id: string)
    requires id != "" && IsNormalId(id)
    ensures IsCleanText(Upper(id))
  {
    IdCharPlain(id[0]);
    IdCharPlain(id[|id| - 1]);
  }

  /** The built-in fallback texts are clean. */
  lemma {:induction false} CleanDefaults()
    ensures IsCleanText("Custom profile") && IsCleanText("Custom layout")
    ensures forall k | k in ButtonLabelDefaults :: IsCleanText(ButtonLabelDefaults[k])
    ensures forall k | k in DpadLabelDefaults :: IsCleanText(DpadLabelDefaults[k])
    ensures forall k | k in UtilityLabelDefaults :: IsCleanText(UtilityLabelDefaults[k])
  {
    CleanWord("Custom profile");
    CleanWord("Custom layout");
    forall k | k in ButtonLabelDefaults ensures IsCleanText(ButtonLabelDefaults[k]) {
      CleanWord(ButtonLabelDefaults[k]);
    }
    forall k | k in DpadLabelDefaults ensures IsCleanText(DpadLabelDefaults[k]) {
      CleanWord(DpadLabelDefaults[k]);
    }
    forall k | k in UtilityLabelDefaults ensures IsCleanText(UtilityLabelDefaults[k]) {
      CleanWord(UtilityLabelDefaults[k]);
    }
  }

  /** A non-empty text whose ends are letters or digits is clean. */
  lemma {:induction false} CleanWord(s: string)
    requires s != "" && IsAlnum(s[0]) && IsAlnum(s[|s| - 1])
    ensures IsCleanText(s)
  {
  }

  /** Trimming and lower-casing leave a string of id characters unchanged. */
  lemma {:induction false} PlainFixed(s: string)
    requires All(s, IsIdChar)
    ensures Lower(JsTrim(s)) == s
  {
    if |s| > 0 {
      IdCharPlain(s[0]);
      IdCharPlain(s[|s| - 1]);
    }
    TrimFixed(s, IsJsSpace);
    forall i | 0 <= i < |s| ensures !IsUpper(s[i]) {
      IdCharPlain(s[i]);
    }
    LowerFixed(s);
  }

  predicate IsTokenList(ts: seq<string>) {
    Distinct(ts) && forall i | 0 <= i < |ts| :: IsToken(ts[i])
  }

  predicate SanitizedBinding(b: KeyBinding) {
    match b
    case SingleKey(t) => IsToken(t)
    case KeyList(ts) => |ts| > 1 && IsTokenList(ts)
  }

  predicate SanitizedKeyboardMap(m: KeyboardMap) {
    forall k | k in m :: k in ProfileInputs && SanitizedBinding(m[k])
  }

  predicate SanitizedVirtualMap(m: VirtualMap) {
    forall k | k in m :: k in ProfileInputs && |m[k]| > 0 && IsTokenList(m[k])
  }

  /** What `SanitizeGameProfile` produces whenever the id survives. */
  predicate SanitizedProfile(p: GameProfile) {
    && p.id != "" && IsNormalId(p.id)
    && IsCleanText(p.name) && IsCleanText(p.description)
    && SanitizedKeyboardMap(p.keyboardMap)
    && SanitizedVirtualMap(p.virtualMap)
  }

  predicate SanitizedOrder(order: seq<string>, canon: seq<string>) {
    && Distinct(order)
    && (forall x | x in order :: x in canon)
    && (forall x | x in canon :: x in order)
  }

  predicate SanitizedLabels(labels: map<string, string>, defaults: LabelDefaults) {
    labels.Keys == defaults.Keys && forall k | k in labels :: IsCleanText(labels[k])
  }

  /** What `SanitizeLayout` produces whenever the id survives. */
  predicate SanitizedLayout(l: Layout) {
    && l.id != "" && IsNormalId(l.id)
    && IsCleanText(l.name) && IsCleanText(l.description)
    && SanitizedOrder(l.panelOrder, PanelCanon)
    && SanitizedOrder(l.buttonGrid, GridCanon)
    && SanitizedLabels(l.buttonLabels, ButtonLabelDefaults)
    && SanitizedLabels(l.dpadLabels, DpadLabelDefaults)
    && SanitizedLabels(l.utilityLabels, UtilityLabelDefaults)
  }

  function SourceOfBinding(b: KeyBinding): TokenSource {
    match b
    case SingleKey(t) => One(t)
    case KeyList(ts) => Many(ts)
  }

  function RawOfKeyboardMap(m: KeyboardMap): map<string, TokenSource> {
    map k | k in m :: SourceOfBinding(m[k])
  }

  function RawOfVirtualMap(m: VirtualMap): map<string, TokenSource> {
    map k | k in m :: Many(m[k])
  }

  /** A profile as the catalog holds it, read back as raw input. */
  function RawOfProfile(p: GameProfile): RawProfile {
    RawProfile(Some(JsonValue.JStr(p.id)), p.name, p.description, RawOfKeyboardMap(p.keyboardMap), RawOfVirtualMap(p.virtualMap))
  }

  /** A layout as the catalog holds it, read back as raw input. */
  function RawOfLayout(l: Layout): RawLayout {
    RawLayout(
      Some(JsonValue.JStr(l.id)), l.name, l.description, Some(l.panelOrder), Some(l.buttonGrid),
      l.buttonLabels, l.dpadLabels, l.utilityLabels)
  }

  lemma {:induction false} SanitizeKeyboardMapSanitized(candidate: map<string, TokenSource>)
    ensures SanitizedKeyboardMap(SanitizeKeyboardMap(candidate))
  {
    var r := SanitizeKeyboardMap(candidate);
    forall k | k in r ensures SanitizedBinding(r[k]) {
      NormalizeListSpec(SourceAt(candidate, k));
    }
  }

  lemma {:induction false} SanitizeVirtualMapSanitized(candidate: map<string, TokenSource>)
    ensures SanitizedVirtualMap(SanitizeVirtualMap(candidate))
  {
    var r := SanitizeVirtualMap(candidate);
    forall k | k in r ensures IsTokenList(r[k]) {
      NormalizeListSpec(SourceAt(candidate, k));
    }
  }

  /** Two maps whose keys lie in `keys` and that agree on every key of
      `keys` are equal. */
  lemma {:induction false} MapsAgree<V>(r: map<string, V>, m: map<string, V>, keys: seq<string>)
    requires forall k | k in r :: k in keys
    requires forall k | k in m :: k in keys
    requires forall k | k in keys :: (k in r <==> k in m) && (k in m ==> r[k] == m[k])
    ensures r == m
  {
    assert r.Keys == m.Keys;
  }

  lemma {:induction false} ResanitizeKeyboardKey(m: KeyboardMap, k: string)
    requires SanitizedKeyboardMap(m) && k in ProfileInputs
    ensures var r := SanitizeKeyboardMap(RawOfKeyboardMap(m));
      (k in r <==> k in m) && (k in m ==> r[k] == m[k])
  {
    if k in m {
      assert SourceAt(RawOfKeyboardMap(m), k) == SourceOfBinding(m[k]);
      match m[k]
      case SingleKey(t) => NormalizeListFixed([t]);
      case KeyList(ts) => NormalizeListFixed(ts);
    } else {
      assert SourceAt(RawOfKeyboardMap(m), k) == Absent;
    }
  }

  lemma {:induction false} ResanitizeKeyboardMap(m: KeyboardMap)
    requires SanitizedKeyboardMap(m)
    ensures SanitizeKeyboardMap(RawOfKeyboardMap(m)) == m
  {
    forall k | k in ProfileInputs
      ensures var r := SanitizeKeyboardMap(RawOfKeyboardMap(m));
        (k in r <==> k in m) && (k in m ==> r[k] == m[k])
    {
      ResanitizeKeyboardKey(m, k);
    }
    MapsAgree(SanitizeKeyboardMap(RawOfKeyboardMap(m)), m, ProfileInputs);
  }

  lemma {:induction false} ResanitizeVirtualKey(m: VirtualMap, k: string)
    requires SanitizedVirtualMap(m) && k in ProfileInputs
    ensures var r := SanitizeVirtualMap(RawOfVirtualMap(m));
      (k in r <==> k in m) && (k in m ==> r[k] == m[k])
  {
    if k in m {
      assert SourceAt(RawOfVirtualMap(m), k) == Many(m[k]);
      NormalizeListFixed(m[k]);
    } else {
      assert SourceAt(RawOfVirtualMap(m), k) == Absent;
    }
  }

  lemma {:induction false} ResanitizeVirtualMap(m: VirtualMap)
    requires SanitizedVirtualMap(m)
    ensures SanitizeVirtualMap(RawOfVirtualMap(m)) == m
  {
    forall k | k in ProfileInputs
      ensures var r := SanitizeVirtualMap(RawOfVirtualMap(m));
        (k in r <==> k in m) && (k in m ==> r[k] == m[k])
    {
      ResanitizeVirtualKey(m, k);
    }
    MapsAgree(SanitizeVirtualMap(RawOfVirtualMap(m)), m, ProfileInputs);
  }

  lemma {:induction false} SanitizeGameProfileSanitized(profile: RawProfile, fallbackId: string)
    ensures var r := SanitizeGameProfile(profile, fallbackId);
      r.id != "" ==> SanitizedProfile(r)
  {
    var id := EntryId(profile.id, fallbackId, "profile");
    if id != "" {
      UpperIdClean(id);
      NormalizeTextClean(profile.name, Upper(id));
      CleanDefaults();
      NormalizeTextClean(profile.description, "Custom profile");
      SanitizeKeyboardMapSanitized(profile.keyboardMap);
      SanitizeVirtualMapSanitized(profile.virtualMap);
    }
  }

  /** Sanitising a sanitised profile read back as raw input gives it back. */
  lemma {:induction false} ResanitizeProfile(p: GameProfile, fallbackId: string)
    requires SanitizedProfile(p)
    ensures SanitizeGameProfile(RawOfProfile(p), fallbackId) == p
  {
    NormalizeIdFixed(p.id);
    NormalizeTextClean(p.name, Upper(p.id));
    NormalizeTextClean(p.description, "Custom profile");
    ResanitizeKeyboardMap(p.keyboardMap);
    ResanitizeVirtualMap(p.virtualMap);
  }

  lemma {:induction false} SanitizeLabelsClean(raw: map<string, string>, defaults: LabelDefaults)
    requires forall k | k in defaults :: IsCleanText(defaults[k])
    ensures SanitizedLabels(SanitizeLabels(raw, defaults), defaults)
  {
    forall k | k in defaults ensures IsCleanText(NormalizeText(LabelAt(raw, k), defaults[k])) {
      NormalizeTextClean(LabelAt(raw, k), defaults[k]);
    }
  }

  lemma {:induction false} ResanitizeLabels(labels: map<string, string>, defaults: LabelDefaults)
    requires SanitizedLabels(labels, defaults)
    ensures SanitizeLabels(labels, defaults) == labels
  {
    var r := SanitizeLabels(labels, defaults);
    forall k | k in r ensures r[k] == labels[k] {
      assert r[k] == NormalizeText(LabelAt(labels, k), defaults[k]);
      assert LabelAt(labels, k) == labels[k] && IsCleanText(labels[k]);
    }
    assert r.Keys == labels.Keys;
  }

  lemma {:induction false} CanonIdChars()
    ensures forall i | 0 <= i < |PanelCanon| :: PanelCanon[i] != "" && All(PanelCanon[i], IsIdChar)
    ensures forall i | 0 <= i < |GridCanon| :: GridCanon[i] != "" && All(GridCanon[i], IsIdChar)
    ensures Distinct(PanelCanon) && Distinct(GridCanon)
  {
  }

  /** Re-ordering an order that is already a permutation of `canon` changes nothing. */
  lemma {:induction false} ResanitizeOrder(order: seq<string>, canon: seq<string>)
    requires SanitizedOrder(order, canon)
    requires forall i | 0 <= i < |canon| :: canon[i] != "" && All(canon[i], IsIdChar)
    ensures SanitizeOrder(Some(order), canon) == order
  {
    ValidEntriesFixed(order, canon);
    assert forall i | 0 <= i < |order| :: order[i] != "" by {
      forall i | 0 <= i < |order| ensures order[i] != "" {
        assert order[i] in canon;
      }
    }
    FirstOccurrencesFixed(order);
    MissingNone(canon, order);
    assert order + [] == order;
  }

  lemma {:induction false} ValidEntriesFixed(order: seq<string>, canon: seq<string>)
    requires forall x | x in order :: x in canon
    requires forall i | 0 <= i < |canon| :: All(canon[i], IsIdChar)
    ensures ValidEntries(order, canon) == order
  {
    if |order| > 0 {
      assert order[0] in canon;
      PlainFixed(order[0]);
      ValidEntriesFixed(order[1..], canon);
      assert order == [order[0]] + order[1..];
    }
  }

  lemma {:induction false} SanitizeLayoutSanitized(layout: RawLayout, fallbackId: string)
    ensures var r := SanitizeLayout(layout, fallbackId);
      r.id != "" ==> SanitizedLayout(r)
  {
    var id := EntryId(layout.id, fallbackId, "layout");
    if id != "" {
      LayoutTextsClean(layout, id);
      CanonIdChars();
      SanitizeOrderPermutation(layout.panelOrder, PanelCanon);
      SanitizeOrderPermutation(layout.buttonGrid, GridCanon);
      LayoutLabelsClean(layout);
    }
  }

  lemma {:induction false} LayoutTextsClean(layout: RawLayout, id: string)
    requires id != "" && IsNormalId(id)
    ensures IsCleanText(NormalizeText(layout.name, Upper(id)))
    ensures IsCleanText(NormalizeText(layout.description, "Custom layout"))
  {
    UpperIdClean(id);
    NormalizeTextClean(layout.name, Upper(id));
    CleanDefaults();
    NormalizeTextClean(layout.description, "Custom layout");
  }

  lemma {:induction false} LayoutLabelsClean(layout: RawLayout)
    ensures SanitizedLabels(SanitizeLabels(layout.buttonLabels, ButtonLabelDefaults), ButtonLabelDefaults)
    ensures SanitizedLabels(SanitizeLabels(layout.dpadLabels, DpadLabelDefaults), DpadLabelDefaults)
    ensures SanitizedLabels(SanitizeLabels(layout.utilityLabels, UtilityLabelDefaults), UtilityLabelDefaults)
  {
    CleanDefaults();
    SanitizeLabelsClean(layout.buttonLabels, ButtonLabelDefaults);
    SanitizeLabelsClean(layout.dpadLabels, DpadLabelDefaults);
    SanitizeLabelsClean(layout.utilityLabels, UtilityLabelDefaults);
  }

  /** Sanitising a sanitised layout read back as raw input gives it back. */
  lemma {:induction false} ResanitizeLayout(l: Layout, fallbackId: string)
    requires SanitizedLayout(l)
    ensures SanitizeLayout(RawOfLayout(l), fallbackId) == l
  {
    NormalizeIdFixed(l.id);
    NormalizeTextClean(l.name, Upper(l.id));
    NormalizeTextClean(l.description, "Custom layout");
    CanonIdChars();
    ResanitizeOrder(l.panelOrder, PanelCanon);
    ResanitizeOrder(l.buttonGrid, GridCanon);
    ResanitizeLabels(l.buttonLabels, ButtonLabelDefaults);
    ResanitizeLabels(l.dpadLabels, DpadLabelDefaults);
    ResanitizeLabels(l.utilityLabels, UtilityLabelDefaults);
  }
}
