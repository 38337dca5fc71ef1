/** Decoded JSON values as the JavaScript and Python code sees them after
    `JSON.parse` / `json.loads`, with each language's truthiness and numeric
    coercion written out. An object keeps its entries in source order. */
module JsonValue {
  import opened Wrappers
  import Text

  datatype Json =
    | JNull
    | JBool(b: bool)
    | JNum(n: real)
    | JStr(s: string)
    | JArr(items: seq<Json>)
    | JObj(entries: seq<(string, Json)>)

  /** The value stored under `key` among `entries` (the first entry that has it). */
  function Lookup(entries: seq<(string, Json)>, key: string): (r: Option<Json>)
    ensures r.Some? <==> exists i | 0 <= i < |entries| :: entries[i].0 == key
    ensures r.Some? ==> exists i | 0 <= i < |entries| :: entries[i] == (key, r.value)
  {
    if |entries| == 0 then None
    else if entries[0].0 == key then Some(entries[0].1)
    else Lookup(entries[1..], key)
  }

  /** Property access `value[key]` (`dict.get(key)` in Python): a value only
      on an object that has the key. */
  function Get(j: Json, key: string): Option<Json> {
    if j.JObj? then Lookup(j.entries, key) else None
  }

  /** The entries an object iterates over (`Object.entries` / `dict.items()`);
      none for any other value. */
  function Entries(j: Json): seq<(string, Json)> {
    if j.JObj? then j.entries else []
  }

  /** JavaScript truthiness (`!!value`); `None` stands for `undefined`. */
  predicate JsTruthy(v: Option<Json>) {
    match v
    case None => false
    case Some(j) =>
      match j
      case JNull => false
      case JBool(b) => b
      case JNum(n) => n != 0.0
      case JStr(s) => s != ""
      case _ => true
  }

  /** Python truthiness (`bool(value)`); `None` stands for a missing key. */
  predicate PyTruthy(v: Option<Json>) {
    match v
    case None => false
    case Some(j) =>
      match j
      case JNull => false
      case JBool(b) => b
      case JNum(n) => n != 0.0
      case JStr(s) => s != ""
      case JArr(items) => |items| > 0
      case JObj(entries) => |entries| > 0
  }

  /** `String(value)` for a decoded value: `null`, `true` and `false` by
      name, a string as itself, an object as `[object Object]`, an array as
      its elements' strings joined by commas (a `null` element as ""). Only
      integral numbers below 10^21 in magnitude are written out; any other
      number gives "" here (see README, "Left out"). */
  function JsToString(j: Json): (r: string)
    ensures j.JStr? ==> r == j.s
    decreases j
  {
    match j
    case JNull => "null"
    case JBool(b) => if b then "true" else "false"
    case JNum(n) => JsNumberString(n)
    case JStr(s) => s
    case JArr(items) =>
      JoinComma(seq(|items|, i requires 0 <= i < |items| => if items[i].JNull? then "" else JsToString(items[i])))
    case JObj(_) => "[object Object]"
  }

  function JsNumberString(n: real): string {
    if n == n.Floor as real && -1_000_000_000_000_000_000_000.0 < n < 1_000_000_000_000_000_000_000.0
    then Text.IntToString(n.Floor) else ""
  }

  /** `Array.prototype.join(",")` on strings. */
  function JoinComma(parts: seq<string>): string {
    if |parts| == 0 then ""
    else if |parts| == 1 then parts[0]
    else parts[0] + "," + JoinComma(parts[1..])
  }

  /** The property key `table[value]` looks up: `String(value)`, and
      `"undefined"` for a missing value. */
  function JsKey(v: Option<Json>): (r: string)
    ensures v.Some? && v.value.JStr? ==> r == v.value.s
  {
    if v.None? then "undefined" else JsToString(v.value)
  }

  /** `String(value || fallback)`: the fallback for a falsy value, else the
      value's JavaScript string. */
  function JsString(v: Option<Json>, fallback: string): (r: string)
    ensures !JsTruthy(v) ==> r == fallback
    ensures v.Some? && v.value.JStr? && v.value.s != "" ==> r == v.value.s
    ensures v.Some? && v.value.JStr? && fallback == "" ==> r == v.value.s
  {
    if !JsTruthy(v) then fallback else JsToString(v.value)
  }

  /** A JavaScript number: a finite value or `NaN`. */
  datatype Num = Finite(r: real) | NaN

  /** `Number(value)`, with `None` for `undefined`. */
  function JsToNumber(v: Option<Json>): Num {
    if v.None? then NaN else JsonToNumber(v.value)
  }

  /** `Number(value)` for a decoded value. An array converts through its
      string form: the empty array is 0, a one-element array is the number
      its element's text denotes (so `[0.5]` is 0.5 and `[true]` is NaN),
      and a longer one is NaN. A string is 0 when it is only whitespace and
      NaN otherwise; numeric strings are not parsed here (see README, "Left
      out"). */
  function JsonToNumber(j: Json): Num
    decreases j
  {
    match j
    case JNull => Finite(0.0)
    case JBool(b) => Finite(if b then 1.0 else 0.0)
    case JNum(n) => Finite(n)
    case JStr(s) => if Text.All(s, Text.IsJsSpace) then Finite(0.0) else NaN
    case JArr(items) =>
      if |items| == 0 then Finite(0.0)
      else if |items| == 1 && !items[0].JBool? && !items[0].JObj? then JsonToNumber(items[0])
      else NaN
    case JObj(_) => NaN
  }

  /** `Math.max(lo, Math.min(hi, value))`: NaN propagates, anything else lands
      in `[lo, hi]`. */
  function JsClamp(v: Num, lo: real, hi: real): (r: Num)
    requires lo <= hi
    ensures v.NaN? <==> r.NaN?
    ensures r.Finite? ==> lo <= r.r <= hi
    ensures v.Finite? && lo <= v.r <= hi ==> r == v
  {
    match v
    case NaN => NaN
    case Finite(x) => Finite(if x < lo then lo else if x > hi then hi else x)
  }

  /** `float(value)` in Python for the values the model covers; `None` is the
      TypeError / ValueError it raises (strings are not parsed, see README). */
  function PyFloat(v: Json): Option<real> {
    match v
    case JBool(b) => Some(if b then 1.0 else 0.0)
    case JNum(n) => Some(n)
    case _ => None
  }

  /** `max(lo, min(hi, x))` on Python floats. */
  function PyClamp(x: real, lo: real, hi: real): (r: real)
    requires lo <= hi
    ensures lo <= r <= hi
    ensures lo <= x <= hi ==> r == x
    ensures x < lo ==> r == lo
    ensures x > hi ==> r == hi
  {
    if x < lo then lo else if x > hi then hi else x
  }
}
