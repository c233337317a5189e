/** The PUSH_REPLY message: the configuration a server pushes to its clients, as text. */
module PushReplies {
  import opened Common
  import opened Text

  datatype Topology = Net30 | P2P | Subnet

  datatype PushRoute = PushRoute(network: string, netmask: string, gateway: Option<string>, metric: Option<u32>)

  datatype PushReply = PushReply(
    routes: seq<PushRoute>,
    ifconfig: Option<(string, string)>,
    ifconfigIpv6: Option<string>,
    dns: seq<string>,
    dnsSearch: seq<string>,
    redirectGateway: bool,
    routeGateway: Option<string>,
    topology: Topology,
    ping: u32,
    pingRestart: u32,
    options: seq<string>)

  const DEFAULT := PushReply([], None, None, [], [], false, None, Subnet, 10, 60, [])
  const MAX_METRIC := 9999

  // ---------------------------------------------------------------- printing

  function TopologyName(t: Topology): string {
    match t
    case Net30 => "net30"
    case P2P => "p2p"
    case Subnet => "subnet"
  }

  function RouteWords(r: PushRoute): seq<string> {
    ["route", r.network, r.netmask, if r.gateway.Some? then r.gateway.value else "vpn_gateway"]
    + if r.metric.Some? then [Print(r.metric.value)] else []
  }

  function Line(ws: seq<string>): string { Join(ws, ' ') }

  function RouteLines(routes: seq<PushRoute>): seq<string> {
    seq(|routes|, i requires 0 <= i < |routes| => Line(RouteWords(routes[i])))
  }

  function DhcpLines(kind: string, values: seq<string>): seq<string> {
    seq(|values|, i requires 0 <= i < |values| => Line(["dhcp-option", kind, values[i]]))
  }

  function AddressLines(r: PushReply): seq<string> {
    [Line(["topology", TopologyName(r.topology)])]
    + (if r.ifconfig.Some? then [Line(["ifconfig", r.ifconfig.value.0, r.ifconfig.value.1])] else [])
    + (if r.ifconfigIpv6.Some? then [Line(["ifconfig-ipv6", r.ifconfigIpv6.value])] else [])
  }

  function GatewayLines(r: PushReply): seq<string> {
    (if r.routeGateway.Some? then [Line(["route-gateway", r.routeGateway.value])] else [])
    + (if r.redirectGateway then [Line(["redirect-gateway", "def1"])] else [])
  }

  function PingLines(r: PushReply): seq<string> {
    [Line(["ping", Print(r.ping)]), Line(["ping-restart", Print(r.pingRestart)])]
  }

  /** The directives of a reply, in the order they are sent. */
  function Directives(r: PushReply): seq<string> {
    AddressLines(r) + RouteLines(r.routes) + GatewayLines(r) + DhcpLines("DNS", r.dns)
    + DhcpLines("DOMAIN", r.dnsSearch) + PingLines(r) + r.options
  }

  function Encoded(r: PushReply): string { Join(["PUSH_REPLY"] + Directives(r), ',') }

  method Encode(r: PushReply) returns (s: string)
    ensures s == Encoded(r)
  {
    hide AddressLines, RouteLines, GatewayLines, DhcpLines, PingLines, Join;
    var parts := PushAddresses(["PUSH_REPLY"], r);
    parts := PushRoutes(parts, r.routes);
    parts := PushGateways(parts, r);
    parts := PushDhcp(parts, "DNS", r.dns);
    parts := PushDhcp(parts, "DOMAIN", r.dnsSearch);
    parts := PushPings(parts, r);
    ghost var sent := parts;
    for i := 0 to |r.options|
      invariant parts == sent + r.options[..i]
    {
      parts := parts + [r.options[i]];
    }
    assert parts == ["PUSH_REPLY"] + Directives(r);
    return Join(parts, ',');
  }

  method PushGateways(start: seq<string>, r: PushReply) returns (parts: seq<string>)
    ensures parts == start + GatewayLines(r)
  {
    hide Line;
    parts := start;
    if r.routeGateway.Some? {
      parts := parts + [Line(["route-gateway", r.routeGateway.value])];
    }
    if r.redirectGateway {
      parts := parts + [Line(["redirect-gateway", "def1"])];
    }
  }

  method PushPings(start: seq<string>, r: PushReply) returns (parts: seq<string>)
    ensures parts == start + PingLines(r)
  {
    hide Line, Print;
    parts := start + [Line(["ping", Print(r.ping)])];
    parts := parts + [Line(["ping-restart", Print(r.pingRestart)])];
  }

  method PushAddresses(start: seq<string>, r: PushReply) returns (parts: seq<string>)
    ensures parts == start + AddressLines(r)
  {
    hide Line;
    parts := start + [Line(["topology", TopologyName(r.topology)])];
    if r.ifconfig.Some? {
      parts := parts + [Line(["ifconfig", r.ifconfig.value.0, r.ifconfig.value.1])];
    }
    if r.ifconfigIpv6.Some? {
      parts := parts + [Line(["ifconfig-ipv6", r.ifconfigIpv6.value])];
    }
  }

  method PushRoutes(start: seq<string>, routes: seq<PushRoute>) returns (parts: seq<string>)
    ensures parts == start + RouteLines(routes)
  {
    hide Line, RouteWords;
    parts := start;
    for i := 0 to |routes|
      invariant parts == start + RouteLines(routes)[..i]
    {
      parts := parts + [Line(RouteWords(routes[i]))];
    }
  }

  method PushDhcp(start: seq<string>, kind: string, values: seq<string>) returns (parts: seq<string>)
    ensures parts == start + DhcpLines(kind, values)
  {
    hide Line;
    parts := start;
    for i := 0 to |values|
      invariant parts == start + DhcpLines(kind, values)[..i]
    {
      parts := parts + [Line(["dhcp-option", kind, values[i]])];
    }
  }

  // ---------------------------------------------------------------- parsing

  function LowerChar(c: char): char {
    if 'A' <= c <= 'Z' then (c as int + 32) as char else c
  }

  function Lower(s: string): string {
    seq(|s|, i requires 0 <= i < |s| => LowerChar(s[i]))
  }

  function ParseTopology(s: string): Topology {
    var name := Lower(s);
    if name == "net30" then Net30 else if name == "p2p" then P2P else Subnet
  }

  predicate IsOctet(o: string) {
    1 <= |o| <= 3 && (forall x | x in o :: IsDigit(x)) && (|o| > 1 ==> o[0] != '0') && Number(o) <= 255
  }

  /** Four decimal octets without leading zeros. */
  predicate IsIpv4(s: string) {
    var parts := Split(s, '.');
    |parts| == 4 && forall p | p in parts :: IsOctet(p)
  }

  /** A route from its words; a gateway or metric that is not valid is as good as absent. */
  function ParseRoute(w: seq<string>): Option<PushRoute> {
    if |w| < 3 || !IsIpv4(w[1]) || !IsIpv4(w[2]) then None
    else
      var gateway := if |w| > 3 && w[3] != "vpn_gateway" && IsIpv4(w[3]) then Some(w[3]) else None;
      var metric := if |w| > 4 then ParseU32(w[4]) else None;
      Some(PushRoute(w[1], w[2], gateway, if metric.Some? && metric.value <= MAX_METRIC then metric else None))
  }

  datatype Keyword =
    | TopologyWord | IfconfigWord | IfconfigIpv6Word | RouteWord | RouteGatewayWord | RedirectWord
    | DhcpWord | PingWord | PingRestartWord | OtherWord

  function KeywordOf(w: seq<string>): Keyword {
    if w == [] then OtherWord
    else if w[0] == "topology" then TopologyWord
    else if w[0] == "ifconfig" then IfconfigWord
    else if w[0] == "ifconfig-ipv6" then IfconfigIpv6Word
    else if w[0] == "route" then RouteWord
    else if w[0] == "route-gateway" then RouteGatewayWord
    else if w[0] == "redirect-gateway" then RedirectWord
    else if w[0] == "dhcp-option" then DhcpWord
    else if w[0] == "ping" then PingWord
    else if w[0] == "ping-restart" then PingRestartWord
    else OtherWord
  }

  function ParseDhcp(r: PushReply, w: seq<string>): PushReply {
    if |w| < 3 then r
    else if w[1] == "DNS" then r.(dns := r.dns + [w[2]])
    else if w[1] == "DOMAIN" then r.(dnsSearch := r.dnsSearch + [w[2]])
    else r
  }

  function ParseNumber(w: seq<string>, otherwise: u32): u32 {
    if |w| < 2 || ParseU32(w[1]).None? then otherwise else ParseU32(w[1]).value
  }

  /** One directive, given its words and, for an unknown one, its text. */
  function Apply(r: PushReply, part: string, w: seq<string>): PushReply {
    match KeywordOf(w)
    case TopologyWord => if |w| < 2 then r else r.(topology := ParseTopology(w[1]))
    case IfconfigWord =>
      r.(ifconfig := Some((if |w| > 1 then w[1] else "", if |w| > 2 then w[2] else "")))
    case IfconfigIpv6Word => if |w| < 2 then r else r.(ifconfigIpv6 := Some(w[1]))
    case RouteWord => if ParseRoute(w).None? then r else r.(routes := r.routes + [ParseRoute(w).value])
    case RouteGatewayWord => if |w| < 2 then r else r.(routeGateway := Some(w[1]))
    case RedirectWord => r.(redirectGateway := true)
    case DhcpWord => ParseDhcp(r, w)
    case PingWord => r.(ping := ParseNumber(w, r.ping))
    case PingRestartWord => r.(pingRestart := ParseNumber(w, r.pingRestart))
    case OtherWord => r.(options := r.options + [part])
  }

  function ParsePart(r: PushReply, raw: string): PushReply {
    var part := Trim(raw);
    if part == "" then r else Apply(r, part, Words(part))
  }

  function ParseParts(r: PushReply, parts: seq<string>): PushReply {
    if parts == [] then r else ParsePart(ParseParts(r, parts[..|parts| - 1]), parts[|parts| - 1])
  }

  const PREFIX := "PUSH_REPLY,"

  function Parsed(s: string): PushReply {
    ParseParts(DEFAULT, Split(if PREFIX <= s then s[|PREFIX|..] else s, ','))
  }

  method Parse(s: string) returns (reply: PushReply)
    ensures reply == Parsed(s)
  {
    hide Apply, Trim, Words, Split;
    reply := DEFAULT;
    var parts := Split(if PREFIX <= s then s[|PREFIX|..] else s, ',');
    for i := 0 to |parts|
      invariant reply == ParseParts(DEFAULT, parts[..i])
    {
      assert parts[..i + 1][..i] == parts[..i];
      var part := Trim(parts[i]);
      if part == "" {
        continue;
      }
      reply := Apply(reply, part, Words(part));
    }
    assert parts[..|parts|] == parts;
  }
}
