/** Character classes, ASCII case mapping, trimming, filtering and decimal
    conversion: the string primitives the normalisers of every component are
    built from. Case mapping is ASCII-only (see README, "Left out"). */
module Text {

  predicate IsUpper(c: char) { 'A' <= c <= 'Z' }
  predicate IsLower(c: char) { 'a' <= c <= 'z' }
  predicate IsDigit(c: char) { '0' <= c <= '9' }
  predicate IsAlnum(c: char) { IsUpper(c) || IsLower(c) || IsDigit(c) }

  /** Every character of `s` satisfies `p`. */
  predicate All(s: string, p: char -> bool) {
    forall i | 0 <= i < |s| :: p(s[i])
  }

  function UpperChar(c: char): (r: char)
    ensures IsLower(c) ==> IsUpper(r) && r as int == c as int - 32
    ensures !IsLower(c) ==> r == c
  {
    if IsLower(c) then (c as int - 32) as char else c
  }

  function LowerChar(c: char): (r: char)
    ensures IsUpper(c) ==> IsLower(r) && r as int == c as int + 32
    ensures !IsUpper(c) ==> r == c
  {
    if IsUpper(c) then (c as int + 32) as char else c
  }

  /** `String.prototype.toUpperCase` / `str.upper` restricted to ASCII letters. */
  function Upper(s: string): (r: string)
    ensures |r| == |s|
    ensures forall i | 0 <= i < |s| :: r[i] == UpperChar(s[i])
  {
    if |s| == 0 then "" else [UpperChar(s[0])] + Upper(s[1..])
  }

  /** `String.prototype.toLowerCase` / `str.lower` restricted to ASCII letters. */
  function Lower(s: string): (r: string)
    ensures |r| == |s|
    ensures forall i | 0 <= i < |s| :: r[i] == LowerChar(s[i])
  {
    if |s| == 0 then "" else [LowerChar(s[0])] + Lower(s[1..])
  }

  /** The characters `String.prototype.trim` removes (WhiteSpace and
      LineTerminator of ECMA-262). */
  predicate IsJsSpace(c: char) {
    || ('\t' <= c <= '\r') || c == ' ' || c == '\U{00A0}' || c == '\U{1680}'
    || ('\U{2000}' <= c <= '\U{200A}') || c == '\U{2028}' || c == '\U{2029}'
    || c == '\U{202F}' || c == '\U{205F}' || c == '\U{3000}' || c == '\U{FEFF}'
  }

  /** The characters Python's `str.strip()` removes (`str.isspace`). */
  predicate IsPySpace(c: char) {
    || ('\t' <= c <= '\r') || ('\U{001C}' <= c <= ' ') || c == '\U{0085}'
    || c == '\U{00A0}' || c == '\U{1680}' || ('\U{2000}' <= c <= '\U{200A}')
    || c == '\U{2028}' || c == '\U{2029}' || c == '\U{202F}' || c == '\U{205F}'
    || c == '\U{3000}'
  }

  function TrimStart(s: string, space: char -> bool): (r: string)
    ensures |r| <= |s| && r == s[|s| - |r|..]
    ensures |r| > 0 ==> !space(r[0])
    ensures forall i | 0 <= i < |s| - |r| :: space(s[i])
  {
    if |s| > 0 && space(s[0]) then TrimStart(s[1..], space) else s
  }

  function TrimEnd(s: string, space: char -> bool): (r: string)
    ensures |r| <= |s| && r == s[..|r|]
    ensures |r| > 0 ==> !space(r[|r| - 1])
    ensures forall i | |r| <= i < |s| :: space(s[i])
  {
    if |s| > 0 && space(s[|s| - 1]) then TrimEnd(s[..|s| - 1], space) else s
  }

  /** `core` is `s` with only `space` characters before and after it. */
  predicate Padded(s: string, core: string, space: char -> bool) {
    exists k | 0 <= k <= |s| - |core| ::
      s[k..k + |core|] == core && All(s[..k], space) && All(s[k + |core|..], space)
  }

  /** `s` without its leading and trailing `space` characters. */
  function Trim(s: string, space: char -> bool): (r: string)
    ensures |r| <= |s|
    ensures |r| > 0 ==> !space(r[0]) && !space(r[|r| - 1])
  {
    TrimEnd(TrimStart(s, space), space)
  }

  /** Trimming cuts nothing but spaces, and leaves nothing exactly when the
      string is all spaces. */
  lemma {:induction false} TrimShape(s: string, space: char -> bool)
    ensures Padded(s, Trim(s, space), space)
    ensures Trim(s, space) == "" <==> All(s, space)
  {
    var t := TrimStart(s, space);
    var r := TrimEnd(t, space);
    assert Trim(s, space) == r;
    var k := |s| - |t|;
    TrimStartHead(s, t, k, space);
    TrimEndTail(s, t, k, r, space);
    SliceOfSuffix(s, t, k, r);
    PaddedAt(s, r, k, space);
    TrimAllSpace(s, t, k, r, space);
  }

  lemma {:induction false} SliceOfSuffix(s: string, t: string, k: nat, r: string)
    requires k <= |s| && t == s[k..] && |r| <= |t| && r == t[..|r|]
    ensures s[k..k + |r|] == r
  {
  }

  lemma {:induction false} PaddedAt(s: string, core: string, k: nat, space: char -> bool)
    requires k + |core| <= |s| && s[k..k + |core|] == core
    requires All(s[..k], space) && All(s[k + |core|..], space)
    ensures Padded(s, core, space)
  {
  }

  lemma {:induction false} TrimAllSpace(s: string, t: string, k: nat, r: string, space: char -> bool)
    requires k <= |s| && t == s[k..] && All(s[..k], space) && (|t| > 0 ==> !space(t[0]))
    requires r == TrimEnd(t, space)
    ensures r == "" <==> All(s, space)
  {
    if r == "" {
      assert t == "";
      forall i | 0 <= i < |s| ensures space(s[i]) {
        assert s[i] == s[..k][i];
      }
    }
  }

  lemma {:induction false} TrimStartHead(s: string, t: string, k: nat, space: char -> bool)
    requires t == TrimStart(s, space) && k == |s| - |t|
    ensures t == s[k..] && All(s[..k], space)
  {
    var head := s[..k];
    forall i | 0 <= i < |head| ensures space(head[i]) {
      assert head[i] == s[i];
    }
  }

  lemma {:induction false} TrimEndTail(s: string, t: string, k: nat, r: string, space: char -> bool)
    requires k <= |s| && t == s[k..] && r == TrimEnd(t, space)
    ensures All(s[k + |r|..], space)
  {
    var tail := s[k + |r|..];
    forall i | 0 <= i < |tail| ensures space(tail[i]) {
      assert tail[i] == t[|r| + i];
    }
  }

  function JsTrim(s: string): string { Trim(s, IsJsSpace) }
  function PyStrip(s: string): string { Trim(s, IsPySpace) }

  /** The characters of `s` that satisfy `p`, in order (a `replace(/[^…]/g, "")`
      or a generator-with-condition over characters). */
  function Keep(s: string, p: char -> bool): (r: string)
    ensures |r| <= |s|
    ensures All(r, p)
  {
    if |s| == 0 then "" else (if p(s[0]) then [s[0]] else "") + Keep(s[1..], p)
  }

  /** The first `n` characters of `s` (`slice(0, n)` / `[:n]`). */
  function Take(s: string, n: nat): (r: string)
    ensures |r| == if |s| <= n then |s| else n
    ensures r == s[..|r|]
  {
    if |s| <= n then s else s[..n]
  }

  lemma {:induction false} KeepConcat(a: string, b: string, p: char -> bool)
    ensures Keep(a + b, p) == Keep(a, p) + Keep(b, p)
  {
    if |a| == 0 {
      assert a + b == b;
    } else {
      assert (a + b)[0] == a[0];
      assert (a + b)[1..] == a[1..] + b;
      KeepConcat(a[1..], b, p);
      var head := if p(a[0]) then [a[0]] else "";
      calc {
        Keep(a + b, p);
        head + Keep(a[1..] + b, p);
        head + (Keep(a[1..], p) + Keep(b, p));
        (head + Keep(a[1..], p)) + Keep(b, p);
      }
    }
  }

  /** Filtering a string whose characters all pass leaves it unchanged. */
  lemma {:induction false} KeepAll(s: string, p: char -> bool)
    requires All(s, p)
    ensures Keep(s, p) == s
  {
    if |s| > 0 {
      KeepAll(s[1..], p);
    }
  }

  /** Filtering a string none of whose characters pass yields the empty string. */
  lemma {:induction false} KeepNone(s: string, p: char -> bool)
    requires forall i | 0 <= i < |s| :: !p(s[i])
    ensures Keep(s, p) == ""
  {
    if |s| > 0 {
      KeepNone(s[1..], p);
    }
  }

  lemma KeepIdempotent(s: string, p: char -> bool)
    ensures Keep(Keep(s, p), p) == Keep(s, p)
  {
    KeepAll(Keep(s, p), p);
  }

  /** Two filters that agree on every character of `s` select the same characters. */
  lemma {:induction false} KeepCongruent(s: string, p: char -> bool, q: char -> bool)
    requires forall i | 0 <= i < |s| :: p(s[i]) == q(s[i])
    ensures Keep(s, p) == Keep(s, q)
  {
    if |s| > 0 {
      KeepCongruent(s[1..], p, q);
    }
  }

  lemma {:induction false} KeepTrimStart(s: string, space: char -> bool, p: char -> bool)
    requires forall c :: space(c) ==> !p(c)
    ensures Keep(TrimStart(s, space), p) == Keep(s, p)
  {
    if |s| > 0 && space(s[0]) {
      KeepTrimStart(s[1..], space, p);
    }
  }

  lemma {:induction false} KeepTrimEnd(s: string, space: char -> bool, p: char -> bool)
    requires forall c :: space(c) ==> !p(c)
    ensures Keep(TrimEnd(s, space), p) == Keep(s, p)
  {
    if |s| > 0 && space(s[|s| - 1]) {
      var init := s[..|s| - 1];
      KeepTrimEnd(init, space, p);
      assert s == init + [s[|s| - 1]];
      KeepConcat(init, [s[|s| - 1]], p);
      assert Keep([s[|s| - 1]], p) == "";
    }
  }

  /** Trimming characters the filter rejects anyway does not change the result. */
  lemma KeepTrim(s: string, space: char -> bool, p: char -> bool)
    requires forall c :: space(c) ==> !p(c)
    ensures Keep(Trim(s, space), p) == Keep(s, p)
  {
    KeepTrimEnd(TrimStart(s, space), space, p);
    KeepTrimStart(s, space, p);
  }

  /** Filtering after upper-casing equals upper-casing after filtering with the
      composed test. */
  lemma {:induction false} KeepUpper(s: string, p: char -> bool)
    ensures Keep(Upper(s), p) == Upper(Keep(s, c => p(UpperChar(c))))
  {
    if |s| > 0 {
      assert Upper(s)[1..] == Upper(s[1..]);
      KeepUpper(s[1..], p);
      var q := c => p(UpperChar(c));
      var head := if q(s[0]) then [s[0]] else "";
      UpperConcat(head, Keep(s[1..], q));
    }
  }

  /** Filtering after lower-casing equals lower-casing after filtering with the
      composed test. */
  lemma {:induction false} KeepLower(s: string, p: char -> bool)
    ensures Keep(Lower(s), p) == Lower(Keep(s, c => p(LowerChar(c))))
  {
    if |s| > 0 {
      assert Lower(s)[1..] == Lower(s[1..]);
      KeepLower(s[1..], p);
      var q := c => p(LowerChar(c));
      var head := if q(s[0]) then [s[0]] else "";
      LowerConcat(head, Keep(s[1..], q));
    }
  }

  lemma {:induction false} UpperConcat(a: string, b: string)
    ensures Upper(a + b) == Upper(a) + Upper(b)
    decreases |a|
  {
    if |a| == 0 {
      assert a + b == b;
    } else {
      assert (a + b)[1..] == a[1..] + b;
      UpperConcat(a[1..], b);
    }
  }

  lemma {:induction false} LowerConcat(a: string, b: string)
    ensures Lower(a + b) == Lower(a) + Lower(b)
    decreases |a|
  {
    if |a| == 0 {
      assert a + b == b;
    } else {
      assert (a + b)[1..] == a[1..] + b;
      LowerConcat(a[1..], b);
    }
  }

  /** Upper-casing a string with no lower-case letters changes nothing. */
  lemma UpperFixed(s: string)
    requires forall i | 0 <= i < |s| :: !IsLower(s[i])
    ensures Upper(s) == s
  {
  }

  /** Lower-casing a string with no upper-case letters changes nothing. */
  lemma LowerFixed(s: string)
    requires forall i | 0 <= i < |s| :: !IsUpper(s[i])
    ensures Lower(s) == s
  {
  }

  /** Trimming a string whose ends are not spaces changes nothing. */
  lemma TrimFixed(s: string, space: char -> bool)
    requires |s| > 0 ==> !space(s[0]) && !space(s[|s| - 1])
    ensures Trim(s, space) == s
  {
  }

  lemma TakeFixed(s: string, n: nat)
    requires |s| <= n
    ensures Take(s, n) == s
  {
  }

  // ---------------------------------------------------------------------
  // Normalising in one pass

  /** The first `n` characters of `s` that pass `p` once mapped by `f`, each
      mapped: trimming, case mapping, filtering and truncation done in one
      pass (`MapPrefixPipeline` relates it to the four steps). */
  function MapPrefix(s: string, n: nat, f: char -> char, p: char -> bool): (r: string)
    ensures |r| <= n && All(r, p)
  {
    if n == 0 || |s| == 0 then ""
    else if p(f(s[0])) then [f(s[0])] + MapPrefix(s[1..], n - 1, f, p)
    else MapPrefix(s[1..], n, f, p)
  }

  /** Mapping every character first (`m`), then filtering and truncating,
      gives the same string. */
  lemma {:induction false} MapPrefixKeep(s: string, m: string, n: nat, f: char -> char, p: char -> bool)
    requires |m| == |s| && forall i | 0 <= i < |s| :: m[i] == f(s[i])
    ensures MapPrefix(s, n, f, p) == Take(Keep(m, p), n)
  {
    if |s| > 0 {
      MapPrefixKeep(s[1..], m[1..], n, f, p);
      if n > 0 && p(f(s[0])) {
        MapPrefixKeep(s[1..], m[1..], n - 1, f, p);
        var rest := Keep(m[1..], p);
        assert Keep(m, p) == [m[0]] + rest;
        assert Take([m[0]] + rest, n) == [m[0]] + Take(rest, n - 1);
      }
    }
  }

  lemma {:induction false} MapPrefixNone(s: string, n: nat, f: char -> char, p: char -> bool)
    requires forall i | 0 <= i < |s| :: !p(f(s[i]))
    ensures MapPrefix(s, n, f, p) == ""
  {
    if |s| > 0 && n > 0 {
      MapPrefixNone(s[1..], n, f, p);
    }
  }

  /** Leading characters that fail the test do not matter. */
  lemma {:induction false} MapPrefixDrop(s: string, t: string, n: nat, f: char -> char, p: char -> bool)
    requires forall i | 0 <= i < |s| :: !p(f(s[i]))
    ensures MapPrefix(s + t, n, f, p) == MapPrefix(t, n, f, p)
  {
    if |s| == 0 {
      assert s + t == t;
    } else if n > 0 {
      assert (s + t)[0] == s[0];
      assert (s + t)[1..] == s[1..] + t;
      MapPrefixDrop(s[1..], t, n, f, p);
    }
  }

  /** Trailing characters that fail the test do not matter. */
  lemma {:induction false} MapPrefixTail(s: string, t: string, n: nat, f: char -> char, p: char -> bool)
    requires forall i | 0 <= i < |t| :: !p(f(t[i]))
    ensures MapPrefix(s + t, n, f, p) == MapPrefix(s, n, f, p)
  {
    if |s| == 0 {
      assert s + t == t;
      MapPrefixNone(t, n, f, p);
    } else if n > 0 {
      assert (s + t)[0] == s[0];
      assert (s + t)[1..] == s[1..] + t;
      if p(f(s[0])) {
        MapPrefixTail(s[1..], t, n - 1, f, p);
      } else {
        MapPrefixTail(s[1..], t, n, f, p);
      }
    }
  }

  lemma {:induction false} MapPrefixTrimStart(s: string, n: nat, f: char -> char, p: char -> bool, space: char -> bool)
    requires forall c :: space(c) ==> !p(f(c))
    ensures MapPrefix(TrimStart(s, space), n, f, p) == MapPrefix(s, n, f, p)
  {
    var a := TrimStart(s, space);
    var lead := s[..|s| - |a|];
    assert a == s[|s| - |a|..];
    assert s == lead + a;
    assert forall i | 0 <= i < |lead| :: space(lead[i]);
    MapPrefixDrop(lead, a, n, f, p);
  }

  lemma {:induction false} MapPrefixTrimEnd(a: string, n: nat, f: char -> char, p: char -> bool, space: char -> bool)
    requires forall c :: space(c) ==> !p(f(c))
    ensures MapPrefix(TrimEnd(a, space), n, f, p) == MapPrefix(a, n, f, p)
  {
    var b := TrimEnd(a, space);
    var trail := a[|b|..];
    assert b == a[..|b|];
    assert a == b + trail;
    assert forall i | 0 <= i < |trail| :: space(trail[i]) by {
      forall i | 0 <= i < |trail| ensures space(trail[i]) {
        assert trail[i] == a[|b| + i];
      }
    }
    MapPrefixTail(b, trail, n, f, p);
  }

  /** Trimming characters the test rejects anyway does not change the result. */
  lemma {:induction false} MapPrefixTrim(s: string, n: nat, f: char -> char, p: char -> bool, space: char -> bool)
    requires forall c :: space(c) ==> !p(f(c))
    ensures MapPrefix(Trim(s, space), n, f, p) == MapPrefix(s, n, f, p)
  {
    MapPrefixTrimStart(s, n, f, p, space);
    MapPrefixTrimEnd(TrimStart(s, space), n, f, p, space);
  }

  /** A string of at most `n` characters that pass the test and that `f`
      leaves alone is its own normal form. */
  lemma {:induction false} MapPrefixFixed(s: string, n: nat, f: char -> char, p: char -> bool)
    requires |s| <= n
    requires forall i | 0 <= i < |s| :: p(s[i]) && f(s[i]) == s[i]
    ensures MapPrefix(s, n, f, p) == s
  {
    if |s| > 0 {
      MapPrefixFixed(s[1..], n - 1, f, p);
    }
  }

  // ---------------------------------------------------------------------
  // Decimal numerals

  function DigitChar(d: nat): (c: char)
    requires d < 10
    ensures IsDigit(c) && c as int - '0' as int == d
  {
    ('0' as int + d) as char
  }

  /** The decimal numeral of `n` without leading zeros (`String(n)` for a
      non-negative integer). */
  function NatToString(n: nat): (r: string)
    ensures |r| > 0 && All(r, IsDigit)
    ensures |r| > 1 ==> r[0] != '0'
    decreases n
  {
    if n < 10 then [DigitChar(n)] else NatToString(n / 10) + [DigitChar(n % 10)]
  }

  /** The value of a string of decimal digits. */
  function DigitsValue(s: string): (v: nat)
    requires All(s, IsDigit)
  {
    if |s| == 0 then 0 else 10 * DigitsValue(s[..|s| - 1]) + (s[|s| - 1] as int - '0' as int)
  }

  /** Reading back a numeral yields the number it was written from. */
  lemma {:induction false} NatToStringRoundTrip(n: nat)
    ensures DigitsValue(NatToString(n)) == n
    decreases n
  {
    if n >= 10 {
      NatToStringRoundTrip(n / 10);
      var s := NatToString(n);
      assert s[..|s| - 1] == NatToString(n / 10);
    }
  }

  /** `String(i)` for any integer. */
  function IntToString(i: int): (r: string)
    ensures |r| > 0
    ensures i >= 0 ==> r == NatToString(i)
    ensures i < 0 ==> r == "-" + NatToString(-i)
  {
    if i >= 0 then NatToString(i) else "-" + NatToString(-i)
  }

  /** A string of `width - |s|` zeros followed by `s` (`padStart(width, "0")`). */
  function PadZeros(s: string, width: nat): (r: string)
    ensures |r| == if |s| >= width then |s| else width
    ensures r[|r| - |s|..] == s
    ensures forall i | 0 <= i < |r| - |s| :: r[i] == '0'
    decreases width - |s|
  {
    if |s| >= width then s else PadZeros("0" + s, width)
  }

  /** Leading zeros do not change the value of a numeral. */
  lemma {:induction false} DigitsValueLeadingZeros(z: string, s: string)
    requires All(z, c => c == '0') && All(s, IsDigit)
    ensures All(z + s, IsDigit)
    ensures DigitsValue(z + s) == DigitsValue(s)
    decreases |s|
  {
    if |s| == 0 {
      assert z + s == z;
      DigitsValueZeros(z);
    } else {
      var t := z + s;
      assert t[..|t| - 1] == z + s[..|s| - 1];
      DigitsValueLeadingZeros(z, s[..|s| - 1]);
    }
  }

  lemma {:induction false} DigitsValueZeros(z: string)
    requires All(z, c => c == '0')
    ensures All(z, IsDigit) && DigitsValue(z) == 0
  {
    if |z| > 0 {
      DigitsValueZeros(z[..|z| - 1]);
    }
  }
}
