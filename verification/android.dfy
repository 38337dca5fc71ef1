/** The phone app's pure pieces (`android/.../controller/LayoutDefinition.kt`,
    `ControllerViewModel.kt`, `network/ConnectionParams.kt`): decoding a
    layout name from the wire, the view model's controller-id guard, and
    reading the pairing deep link. */
module Android {
  import opened Wrappers
  import opened Text
  import Protocol
  import opened Uri
  import HostServer

  // ---------------------------------------------------------------------
  // Layouts

  datatype LayoutType = XboxType | SimpleType | CustomType

  /** Which controls a layout puts on screen. */
  datatype LayoutDefinition = LayoutDefinition(
    kind: LayoutType,
    showLeftStick: bool,
    showRightStick: bool,
    showTriggers: bool,
    showFaceButtons: bool,
    showDpad: bool)

  const XboxLayout := LayoutDefinition(XboxType, true, true, true, true, true)
  const SimpleLayout := LayoutDefinition(SimpleType, true, false, false, true, true)
  const CustomLayout := LayoutDefinition(CustomType, true, true, true, true, true)

  /** `Layouts.fromWire`: the layout named, ignoring case; `xbox` for any
      other name. Lower-casing is ASCII-only, which is exact for these three
      names. */
  function FromWire(layout: string): (r: LayoutDefinition)
    ensures r == XboxLayout || r == SimpleLayout || r == CustomLayout
  {
    var name := Lower(layout);
    if name == "xbox" then XboxLayout
    else if name == "simple" then SimpleLayout
    else if name == "custom" then CustomLayout
    else XboxLayout
  }

  /** Two names that differ only in case decode to the same layout. */
  lemma {:induction false} FromWireIgnoresCase(a: string, b: string)
    requires Lower(a) == Lower(b)
    ensures FromWire(a) == FromWire(b)
  {
  }

  /** A name that is none of the three, in any case, decodes to `xbox`. */
  lemma {:induction false} FromWireUnknown(s: string)
    requires Lower(s) != "xbox" && Lower(s) != "simple" && Lower(s) != "custom"
    ensures FromWire(s) == XboxLayout
  {
  }

  /** The phone decodes every layout name the desktop sends as that layout. */
  lemma {:induction false} FromWireDesktop(l: Protocol.Layout)
    ensures FromWire(Protocol.LayoutWire(l)).kind ==
      match l
      case Xbox => XboxType
      case Simple => SimpleType
      case Custom => CustomType
  {
    var w := Protocol.LayoutWire(l);
    assert Lower(w) == w;
  }

  /** Whatever the name, the left stick, face buttons and D-pad are shown;
      the right stick and triggers are shown unless the layout is `simple`. */
  lemma {:induction false} FromWireVisibility(s: string)
    ensures var r := FromWire(s);
      && r.showLeftStick && r.showFaceButtons && r.showDpad
      && (r.showRightStick <==> r.kind != SimpleType)
      && (r.showTriggers <==> r.kind != SimpleType)
  {
  }

  // ---------------------------------------------------------------------
  // The controller screen's view model

  datatype ViewModel = ViewModel(layout: LayoutDefinition, controllerId: int)

  const InitialViewModel := ViewModel(XboxLayout, -1)

  /** `setControllerInfo(id, layoutWire)`. */
  function SetControllerInfo(vm: ViewModel, id: int, layoutWire: string): (r: ViewModel)
    ensures r.layout == FromWire(layoutWire)
    ensures id > 0 ==> r.controllerId == id
    ensures id <= 0 ==> r.controllerId == vm.controllerId
  {
    ViewModel(FromWire(layoutWire), if id > 0 then id else vm.controllerId)
  }

  /** A `layout_change` (reported with id -1) after a `welcome` keeps the
      welcomed id and takes the new layout. */
  lemma {:induction false} LayoutChangeKeepsId(vm: ViewModel, id: int, welcomeLayout: string, newLayout: string)
    requires id > 0
    ensures var r := SetControllerInfo(SetControllerInfo(vm, id, welcomeLayout), -1, newLayout);
      r.controllerId == id && r.layout == FromWire(newLayout)
  {
  }

  /** Once set, the id is never again negative. */
  lemma {:induction false} IdStaysPositive(vm: ViewModel, id: int, layoutWire: string)
    requires vm.controllerId > 0
    ensures SetControllerInfo(vm, id, layoutWire).controllerId > 0
  {
  }

  // ---------------------------------------------------------------------
  // Connection parameters

  datatype ConnectionParams = ConnectionParams(ip: string, port: int, code: string)

  /** `toWebSocketUrl()`. */
  function ToWebSocketUrl(p: ConnectionParams): (r: string)
    ensures |r| > 6 + |p.ip|
    ensures r[..5] == "ws://" && r[5..5 + |p.ip|] == p.ip && r[5 + |p.ip|] == ':'
    ensures r[6 + |p.ip|..] == IntToString(p.port)
  {
    var r := "ws://" + p.ip + ":" + IntToString(p.port);
    assert r[5..5 + |p.ip|] == p.ip;
    r
  }

  /** For a host without a colon and a non-negative port, the URL can be
      read back: the host runs from after `ws://` to the first colon, and the
      rest parses back to the port. */
  lemma {:induction false} WebSocketUrlReadsBack(p: ConnectionParams)
    requires forall i | 0 <= i < |p.ip| :: p.ip[i] != ':'
    requires 0 <= p.port < 0x8000_0000
    ensures var u := ToWebSocketUrl(p);
      && u[..5] == "ws://"
      && (forall i | 5 <= i < 5 + |p.ip| :: u[i] != ':')
      && u[5 + |p.ip|] == ':'
      && u[5..5 + |p.ip|] == p.ip
      && ToIntOrNull(u[6 + |p.ip|..]) == Some(p.port)
  {
    var u := ToWebSocketUrl(p);
    forall i | 5 <= i < 5 + |p.ip| ensures u[i] != ':' {
      assert u[i] == u[5..5 + |p.ip|][i - 5];
    }
    ToIntNatToString(p.port);
  }

  /** `ConnectionParams.fromUri`. `getQueryParameter` throws on an opaque
      URI, and the exception is turned into `null`. */
  function FromUri(u: string): (r: Option<ConnectionParams>)
    ensures r.Some? <==>
      && IsHierarchical(u)
      && QueryParameter(u, "ip").Some?
      && QueryParameter(u, "port").Some? && ToIntOrNull(QueryParameter(u, "port").value).Some?
      && QueryParameter(u, "code").Some?
    ensures r.Some? ==>
      && r.value.ip == QueryParameter(u, "ip").value
      && Some(r.value.port) == ToIntOrNull(QueryParameter(u, "port").value)
      && r.value.code == QueryParameter(u, "code").value
  {
    if !IsHierarchical(u) then None
    else
      match QueryParameter(u, "ip")
      case None => None
      case Some(ip) =>
        match QueryParameter(u, "port")
        case None => None
        case Some(portText) =>
          match ToIntOrNull(portText)
          case None => None
          case Some(port) =>
            match QueryParameter(u, "code")
            case None => None
            case Some(code) => Some(ConnectionParams(ip, port, code))
  }

  // ---------------------------------------------------------------------
  // The deep link read back

  /** A value with no `+` or `%` decodes to itself. */
  lemma {:induction false} DecodePlain(s: string)
    requires forall i | 0 <= i < |s| :: s[i] != '+' && s[i] != '%'
    ensures DecodeQueryValue(s) == s
    decreases |s|
  {
    if |s| > 0 {
      DecodePlain(s[1..]);
    }
  }

  /** Where the parts of `pre + name + "=" + value + post` lie. */
  lemma {:induction false} ParamLayout(q: string, pre: string, name: string, value: string, post: string)
    requires q == pre + name + "=" + value + post
    ensures |q| == |pre| + |name| + 1 + |value| + |post|
    ensures q[|pre|..|pre| + |name|] == name && q[|pre| + |name|] == '='
    ensures q[|pre| + |name| + 1..|pre| + |name| + 1 + |value|] == value
    ensures post != [] ==> q[|pre| + |name| + 1 + |value|] == post[0]
  {
    assert q[|pre|..|pre| + |name|] == name;
    assert q[|pre| + |name| + 1..|pre| + |name| + 1 + |value|] == value;
  }

  /** No character of an encoded component is `&`, `=`, `+`, `?` or `#`. */
  lemma {:induction false} EncodedPlain(ip: string)
    ensures var e := EncodeUriComponent(ip);
      forall i | 0 <= i < |e| :: e[i] !in "&=+?#"
  {
  }

  const LinkHead: string := "aircontroller://connect?"

  /** The query part of the deep link. */
  function LinkQuery(e: string, p: string, c: string): string
  {
    "ip=" + e + "&port=" + p + "&code=" + c
  }

  /** In the link's head, the scheme ends at 13 and the query starts at 24. */
  lemma {:induction false} HeadMarks(q: string)
    ensures var u := LinkHead + q;
      IndexOf(u, ':', 0) == 13 && u[14] == '/' && IndexOf(u, '?', 13) == 23 && u[24..] == q
  {
    var u := LinkHead + q;
    assert u[..13] == "aircontroller" && ':' !in u[..13] && u[13] == ':';
    forall i | 0 <= i < 13 ensures u[i] != ':' {
      assert u[i] == u[..13][i];
    }
    assert u[13..23] == "://connect" && '?' !in u[13..23] && u[23] == '?';
    forall i | 13 <= i < 23 ensures u[i] != '?' {
      assert u[i] == u[13..23][i - 13];
    }
  }

  /** The link's head holds no `#` after its scheme. */
  lemma {:induction false} HeadNoFragment(q: string)
    requires forall i | 0 <= i < |q| :: q[i] != '#'
    ensures IndexOf(LinkHead + q, '#', 13) == -1
  {
    var u := LinkHead + q;
    assert u[13..24] == "://connect?" && '#' !in u[13..24];
    forall i | 13 <= i < |u| ensures u[i] != '#' {
      if i < 24 {
        assert u[i] == u[13..24][i - 13];
      } else {
        assert u[i] == q[i - 24];
      }
    }
  }

  /** A URI made of the link's scheme and host, then `?` and a query with no
      `#`, is hierarchical and its query is that text. */
  lemma {:induction false} HeadQuery(q: string)
    requires forall i | 0 <= i < |q| :: q[i] != '#'
    ensures IsHierarchical(LinkHead + q) && EncodedQuery(LinkHead + q) == Some(q)
  {
    HeadMarks(q);
    HeadNoFragment(q);
  }

  /** The scan at `ip`, the link query's first parameter. */
  lemma {:induction false} ScanIp(e: string, p: string, c: string, key: string)
    requires forall i | 0 <= i < |e| :: e[i] != '&'
    ensures QueryScan(LinkQuery(e, p, c), key, 0) ==
      if key == "ip" then Some(e) else QueryScan(LinkQuery(e, p, c), key, 4 + |e|)
  {
    var q := LinkQuery(e, p, c);
    var post := "&port=" + p + "&code=" + c;
    assert q == "" + "ip" + "=" + e + post;
    ParamLayout(q, "", "ip", e, post);
    ScanParam(q, key, 0, "ip", e);
  }

  /** Where the `port` parameter lies in the link query. */
  lemma {:induction false} PortLayout(e: string, p: string, c: string)
    ensures var q := LinkQuery(e, p, c); var start := 4 + |e|;
      && |q| == start + 4 + 1 + |p| + 1 + 5 + |c|
      && q[start..start + 4] == "port" && q[start + 4] == '='
      && q[start + 5..start + 5 + |p|] == p && q[start + 5 + |p|] == '&'
  {
    var q := LinkQuery(e, p, c);
    var pre := "ip=" + e + "&";
    var post := "&code=" + c;
    assert q == pre + "port" + "=" + p + post;
    ParamLayout(q, pre, "port", p, post);
  }

  /** The scan at `port`, the second parameter. */
  lemma {:induction false} ScanPort(q: string, e: string, p: string, key: string)
    requires forall i | 0 <= i < |p| :: p[i] != '&'
    requires var start := 4 + |e|;
      && |q| > start + 5 + |p|
      && q[start..start + 4] == "port" && q[start + 4] == '='
      && q[start + 5..start + 5 + |p|] == p && q[start + 5 + |p|] == '&'
    ensures var start := 4 + |e|;
      QueryScan(q, key, start) ==
        if key == "port" then Some(p) else QueryScan(q, key, start + 6 + |p|)
  {
    ScanParam(q, key, 4 + |e|, "port", p);
  }

  /** The scan at `code`, the last parameter. */
  lemma {:induction false} ScanCode(e: string, p: string, c: string, key: string)
    requires forall i | 0 <= i < |c| :: c[i] != '&'
    ensures var start := 4 + |e| + 6 + |p|;
      QueryScan(LinkQuery(e, p, c), key, start) == if key == "code" then Some(c) else None
  {
    var q := LinkQuery(e, p, c);
    var pre := "ip=" + e + "&port=" + p + "&";
    assert q == pre + "code" + "=" + c + "";
    ParamLayout(q, pre, "code", c, "");
    ScanParam(q, key, |pre|, "code", c);
  }

  /** A query with no `#` anywhere, given three parameters free of `&`. */
  lemma {:induction false} LinkQueryPlain(e: string, p: string, c: string)
    requires forall i | 0 <= i < |e| :: e[i] != '#'
    requires forall i | 0 <= i < |p| :: p[i] != '#'
    requires forall i | 0 <= i < |c| :: c[i] != '#'
    ensures var q := LinkQuery(e, p, c); forall i | 0 <= i < |q| :: q[i] != '#'
  {
    var q := LinkQuery(e, p, c);
    forall i | 0 <= i < |q| ensures q[i] != '#' {
      if 3 <= i < 3 + |e| {
        assert q[i] == e[i - 3];
      } else if 3 + |e| + 6 <= i < 3 + |e| + 6 + |p| {
        assert q[i] == p[i - 3 - |e| - 6];
      } else if 3 + |e| + 6 + |p| + 6 <= i {
        assert q[i] == c[i - 3 - |e| - 6 - |p| - 6];
      }
    }
  }

  /** The scan finds each of the three parameters with its own value. */
  lemma {:induction false} LinkQueryScans(e: string, p: string, c: string)
    requires forall i | 0 <= i < |e| :: e[i] != '&'
    requires forall i | 0 <= i < |p| :: p[i] != '&'
    requires forall i | 0 <= i < |c| :: c[i] != '&'
    ensures var q := LinkQuery(e, p, c);
      && QueryScan(q, "ip", 0) == Some(e)
      && QueryScan(q, "port", 0) == Some(p)
      && QueryScan(q, "code", 0) == Some(c)
  {
    var q := LinkQuery(e, p, c);
    ScanIp(e, p, c, "ip");
    ScanIp(e, p, c, "port");
    PortLayout(e, p, c);
    ScanPort(q, e, p, "port");
    ScanIp(e, p, c, "code");
    ScanPort(q, e, p, "code");
    ScanCode(e, p, c, "code");
  }

  /** What `fromUri` makes of a hierarchical URI whose query holds the
      three parameters with the given encoded values. */
  lemma {:induction false} FromUriReads(u: string, q: string, e: string, p: string, c: string)
    requires IsHierarchical(u) && EncodedQuery(u) == Some(q)
    requires QueryScan(q, "ip", 0) == Some(e) && QueryScan(q, "port", 0) == Some(p)
    requires QueryScan(q, "code", 0) == Some(c)
    ensures FromUri(u) ==
      match ToIntOrNull(DecodeQueryValue(p))
      case None => None
      case Some(port) => Some(ConnectionParams(DecodeQueryValue(e), port, DecodeQueryValue(c)))
  {
  }

  /** The deep link is the fixed head followed by its query. */
  lemma {:induction false} DeepLinkShape(ip: string, port: nat, code: string)
    ensures HostServer.DeepLink(ip, port, code) == LinkHead + LinkQuery(EncodeUriComponent(ip), NatToString(port), code)
  {
  }

  /** No part of the deep link's query holds `&` or `#`. */
  lemma {:induction false} LinkPartsPlain(ip: string, port: nat, code: string)
    requires forall i | 0 <= i < |code| :: IsDigit(code[i])
    ensures var e := EncodeUriComponent(ip); forall i | 0 <= i < |e| :: e[i] != '&' && e[i] != '#'
    ensures var p := NatToString(port); forall i | 0 <= i < |p| :: p[i] != '&' && p[i] != '#'
    ensures forall i | 0 <= i < |code| :: code[i] != '&' && code[i] != '#'
  {
    EncodedPlain(ip);
    var p := NatToString(port);
    forall i | 0 <= i < |p| ensures p[i] != '&' && p[i] != '#' {
      assert IsDigit(p[i]);
    }
  }

  /** The deep link is hierarchical, and its query holds the encoded
      address, the port's numeral and the code as its three parameters. */
  lemma {:induction false} DeepLinkQuery(ip: string, port: nat, code: string)
    requires forall i | 0 <= i < |code| :: IsDigit(code[i])
    ensures var e := EncodeUriComponent(ip);
      var p := NatToString(port);
      var q := LinkQuery(e, p, code);
      var u := HostServer.DeepLink(ip, port, code);
      && IsHierarchical(u) && EncodedQuery(u) == Some(q)
      && QueryScan(q, "ip", 0) == Some(e) && QueryScan(q, "port", 0) == Some(p) && QueryScan(q, "code", 0) == Some(code)
  {
    var e := EncodeUriComponent(ip);
    var p := NatToString(port);
    var q := LinkQuery(e, p, code);
    DeepLinkShape(ip, port, code);
    LinkPartsPlain(ip, port, code);
    LinkQueryPlain(e, p, code);
    HeadQuery(q);
    LinkQueryScans(e, p, code);
  }

  /** Reading back the link the desktop puts in its QR code yields the
      address, port and code it was made from, for an ASCII address, a port
      that fits in 32 bits and a code of digits. */
  lemma {:induction false} DeepLinkRoundTrip(ip: string, port: nat, code: string)
    requires All(ip, IsAscii) && port < 0x8000_0000
    requires forall i | 0 <= i < |code| :: IsDigit(code[i])
    ensures FromUri(HostServer.DeepLink(ip, port, code)) == Some(ConnectionParams(ip, port, code))
  {
    var e := EncodeUriComponent(ip);
    var p := NatToString(port);
    DeepLinkQuery(ip, port, code);
    FromUriReads(HostServer.DeepLink(ip, port, code), LinkQuery(e, p, code), e, p, code);
    DecodeEncode(ip);
    forall i | 0 <= i < |p| ensures p[i] != '+' && p[i] != '%' {
      assert IsDigit(p[i]);
    }
    DecodePlain(p);
    DecodePlain(code);
    ToIntNatToString(port);
  }
}
