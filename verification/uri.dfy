/** The URI text handling the pairing deep link goes through: JavaScript's
    `encodeURIComponent` on the desktop side, and on the phone the parts of
    `android.net.Uri` that `ConnectionParams.fromUri` uses (`parse`,
    `getQueryParameter`) together with Kotlin's `String.toIntOrNull`. */
module Uri {
  import opened Wrappers
  import opened Text

  predicate IsAscii(c: char) { c as int < 0x80 }

  /** The characters `encodeURIComponent` leaves alone. */
  predicate IsUnreserved(c: char) {
    IsAlnum(c) || c in "-_.!~*'()"
  }

  function HexChar(n: nat): (c: char)
    requires n < 16
  {
    if n < 10 then DigitChar(n) else ('A' as int + (n - 10)) as char
  }

  /** The value of a hexadecimal digit, either case. */
  function HexValue(c: char): (r: Option<nat>)
    ensures r.Some? ==> r.value < 16
  {
    if IsDigit(c) then Some(c as int - '0' as int)
    else if 'A' <= c <= 'F' then Some(c as int - 'A' as int + 10)
    else if 'a' <= c <= 'f' then Some(c as int - 'a' as int + 10)
    else None
  }

  lemma {:induction false} HexRoundTrip(n: nat)
    requires n < 16
    ensures HexValue(HexChar(n)) == Some(n)
  {
  }

  /** The UTF-8 bytes of a character. */
  function Utf8(c: char): (r: seq<nat>)
    ensures 1 <= |r| <= 4 && forall k | 0 <= k < |r| :: r[k] < 256
    ensures IsAscii(c) ==> r == [c as int]
  {
    var n := c as int;
    if n < 0x80 then [n]
    else if n < 0x800 then [0xC0 + n / 0x40, 0x80 + n % 0x40]
    else if n < 0x10000 then [0xE0 + n / 0x1000, 0x80 + (n / 0x40) % 0x40, 0x80 + n % 0x40]
    else [0xF0 + n / 0x40000, 0x80 + (n / 0x1000) % 0x40, 0x80 + (n / 0x40) % 0x40, 0x80 + n % 0x40]
  }

  /** `%XY` for one byte. */
  function Escape(b: nat): (r: string)
    requires b < 256
    ensures |r| == 3 && r[0] == '%'
  {
    ['%', HexChar(b / 16), HexChar(b % 16)]
  }

  function EscapeAll(bytes: seq<nat>): (r: string)
    requires forall k | 0 <= k < |bytes| :: bytes[k] < 256
    ensures forall i | 0 <= i < |r| :: r[i] == '%' || IsAlnum(r[i])
  {
    if |bytes| == 0 then "" else Escape(bytes[0]) + EscapeAll(bytes[1..])
  }

  /** `encodeURIComponent(s)`. */
  function EncodeUriComponent(s: string): (r: string)
    ensures forall i | 0 <= i < |r| :: r[i] == '%' || IsUnreserved(r[i])
  {
    if |s| == 0 then ""
    else (if IsUnreserved(s[0]) then [s[0]] else EscapeAll(Utf8(s[0]))) + EncodeUriComponent(s[1..])
  }

  /** The decoding `getQueryParameter` applies to a value: `+` is a space
      and an escape of an ASCII byte is that character. */
  function DecodeQueryValue(s: string): (r: string)
    decreases |s|
  {
    if |s| == 0 then ""
    else if s[0] == '+' then " " + DecodeQueryValue(s[1..])
    else if s[0] == '%' && |s| >= 3 && HexValue(s[1]).Some? && HexValue(s[2]).Some?
            && HexValue(s[1]).value * 16 + HexValue(s[2]).value < 0x80
    then [(HexValue(s[1]).value * 16 + HexValue(s[2]).value) as char] + DecodeQueryValue(s[3..])
    else [s[0]] + DecodeQueryValue(s[1..])
  }

  /** Decoding undoes `encodeURIComponent` on ASCII text. */
  lemma {:induction false} DecodeEncode(s: string)
    requires All(s, IsAscii)
    ensures DecodeQueryValue(EncodeUriComponent(s)) == s
  {
    if |s| > 0 {
      var c := s[0];
      var rest := EncodeUriComponent(s[1..]);
      assert All(s[1..], IsAscii);
      DecodeEncode(s[1..]);
      if IsUnreserved(c) {
        assert EncodeUriComponent(s) == [c] + rest;
        assert ([c] + rest)[1..] == rest;
      } else {
        var e := Escape(c as int);
        assert EscapeAll(Utf8(c)) == e by {
          assert Utf8(c) == [c as int];
          assert EscapeAll([c as int]) == e + EscapeAll([]);
        }
        assert EncodeUriComponent(s) == e + rest;
        HexRoundTrip((c as int) / 16);
        HexRoundTrip((c as int) % 16);
        assert (e + rest)[3..] == rest;
      }
    }
  }

  // ---------------------------------------------------------------------
  // java.lang.String helpers

  /** `s.indexOf(c, from)`: the first position at or after `from` holding
      `c`, or -1. */
  function IndexOf(s: string, c: char, from: int): (r: int)
    ensures -1 <= r < |s|
    ensures r >= 0 ==> from <= r && s[r] == c && forall i | from <= i < r && 0 <= i :: s[i] != c
    ensures r == -1 ==> forall i | from <= i < |s| && 0 <= i :: s[i] != c
    decreases |s| - from
  {
    if from < 0 then IndexOf(s, c, 0)
    else if from >= |s| then -1
    else if s[from] == c then from
    else IndexOf(s, c, from + 1)
  }

  /** A character found in `a` is found at the same place in `a + b`. */
  lemma {:induction false} IndexOfPrefix(a: string, b: string, c: char, from: nat)
    requires IndexOf(a, c, from) >= 0
    ensures IndexOf(a + b, c, from) == IndexOf(a, c, from)
  {
    var k := IndexOf(a, c, from);
    assert (a + b)[k] == c;
  }

  /** A character in neither `a` (from `from` on) nor `b` is not in `a + b`. */
  lemma {:induction false} IndexOfAbsent(a: string, b: string, c: char, from: nat)
    requires IndexOf(a, c, from) == -1
    requires forall i | 0 <= i < |b| :: b[i] != c
    ensures IndexOf(a + b, c, from) == -1
  {
  }

  /** Kotlin's `String.toIntOrNull()`: an optional sign and decimal digits
      whose value fits in 32 bits. */
  function ToIntOrNull(s: string): (r: Option<int>)
    ensures r.Some? ==> -0x8000_0000 <= r.value < 0x8000_0000
  {
    if |s| == 0 then None
    else
      var (negative, digits) := if s[0] == '-' || s[0] == '+' then (s[0] == '-', s[1..]) else (false, s);
      if |digits| == 0 || !All(digits, IsDigit) then None
      else
        var n: int := DigitsValue(digits);
        var v := if negative then -n else n;
        if -0x8000_0000 <= v < 0x8000_0000 then Some(v) else None
  }

  /** The numeral of a port reads back as that port. */
  lemma {:induction false} ToIntNatToString(n: nat)
    requires n < 0x8000_0000
    ensures ToIntOrNull(NatToString(n)) == Some(n)
  {
    NatToStringRoundTrip(n);
    var s := NatToString(n);
    assert s[0] != '-' && s[0] != '+' by {
      assert IsDigit(s[0]);
    }
  }

  // ---------------------------------------------------------------------
  // android.net.Uri

  /** `Uri.parse(u).isHierarchical()`: no scheme, or a scheme followed by
      `/`. `getQueryParameter` throws on any other URI. */
  predicate IsHierarchical(u: string) {
    var ssi := IndexOf(u, ':', 0);
    ssi == -1 || (ssi + 1 < |u| && u[ssi + 1] == '/')
  }

  /** `getEncodedQuery()`: the text between the first `?` after the scheme
      and the fragment, if any. */
  function EncodedQuery(u: string): (r: Option<string>)
  {
    var ssi := IndexOf(u, ':', 0);
    var qsi := IndexOf(u, '?', ssi);
    if qsi == -1 then None
    else
      var fsi := IndexOf(u, '#', ssi);
      if fsi == -1 then Some(u[qsi + 1..])
      else if fsi < qsi then None
      else Some(u[qsi + 1..fsi])
  }

  /** The scan `getQueryParameter(key)` makes through `query` from
      position `start`: the first `&`-separated parameter whose name is
      `key` gives its still-encoded value, or "" when it has no `=`. */
  function QueryScan(query: string, key: string, start: nat): (r: Option<string>)
    requires start <= |query|
    decreases |query| - start
  {
    var amp := IndexOf(query, '&', start);
    var end := if amp != -1 then amp else |query|;
    var eq := IndexOf(query, '=', start);
    var sep := if eq > end || eq == -1 then end else eq;
    if sep - start == |key| && query[start..sep] == key then
      if sep == end then Some("") else Some(query[sep + 1..end])
    else if amp != -1 then QueryScan(query, key, amp + 1)
    else None
  }

  /** `Uri.parse(u).getQueryParameter(key)` for a key made of unreserved
      characters (so that encoding it changes nothing); `None` is `null`.
      The value found is decoded. */
  function QueryParameter(u: string, key: string): Option<string>
    requires IsHierarchical(u)
  {
    match EncodedQuery(u)
    case None => None
    case Some(q) =>
      match QueryScan(q, key, 0)
      case None => None
      case Some(v) => Some(DecodeQueryValue(v))
  }

  /** One step of the scan over a parameter `name=value` that starts at
      `start` and ends at the end of the query or at an `&`: the value when
      the name is the key, else the scan moves on to the next parameter. */
  lemma {:induction false} ScanParam(q: string, key: string, start: nat, name: string, value: string)
    requires forall i | 0 <= i < |name| :: name[i] != '&' && name[i] != '='
    requires forall i | 0 <= i < |value| :: value[i] != '&'
    requires start + |name| + 1 + |value| <= |q|
    requires q[start..start + |name|] == name && q[start + |name|] == '='
    requires q[start + |name| + 1..start + |name| + 1 + |value|] == value
    requires var end := start + |name| + 1 + |value|; end == |q| || q[end] == '&'
    ensures var end := start + |name| + 1 + |value|;
      QueryScan(q, key, start) ==
        if name == key then Some(value)
        else if end < |q| then QueryScan(q, key, end + 1)
        else None
  {
    var end := start + |name| + 1 + |value|;
    forall i | start <= i < start + |name| ensures q[i] != '&' && q[i] != '=' {
      assert q[i] == q[start..start + |name|][i - start];
    }
    forall i | start + |name| + 1 <= i < end ensures q[i] != '&' {
      assert q[i] == q[start + |name| + 1..end][i - start - |name| - 1];
    }
    assert IndexOf(q, '=', start) == start + |name|;
    if end < |q| {
      assert IndexOf(q, '&', start) == end;
    } else {
      assert IndexOf(q, '&', start) == -1;
    }
  }
}
