/** Printing and parsing push replies undo each other, on exactly the replies the parser can return. */
module PushReplyRoundTrip {
  import opened Common
  import opened Text
  import opened PushReplies

  /** A non-empty word without white space or commas. */
  predicate Token(s: string) { s != "" && SpaceFree(s) && Free(s, ',') }

  predicate CanonicalRoute(r: PushRoute) {
    && IsIpv4(r.network) && IsIpv4(r.netmask) && (r.gateway.Some? ==> IsIpv4(r.gateway.value))
    && (r.metric.Some? ==> r.metric.value <= MAX_METRIC)
  }

  /** The two values of ifconfig may be missing, the second before the first. */
  predicate CanonicalPair(p: (string, string)) {
    (p.0 == "" || Token(p.0)) && (p.1 == "" || Token(p.1)) && (p.0 == "" ==> p.1 == "")
  }

  /** Trimmed text without commas that does not begin with a known directive. */
  predicate CanonicalOption(o: string) {
    o != "" && Trimmed(o) && Free(o, ',') && KeywordOf(Words(o)) == OtherWord
  }

  predicate Canonical(r: PushReply) {
    && (r.ifconfig.Some? ==> CanonicalPair(r.ifconfig.value))
    && (r.ifconfigIpv6.Some? ==> Token(r.ifconfigIpv6.value))
    && (r.routeGateway.Some? ==> Token(r.routeGateway.value))
    && (forall x | x in r.routes :: CanonicalRoute(x))
    && (forall x | x in r.dns :: Token(x))
    && (forall x | x in r.dnsSearch :: Token(x))
    && (forall x | x in r.options :: CanonicalOption(x))
  }

  // ---------------------------------------------------------------- what the parser returns

  lemma WordsAreTokens(s: string)
    requires Free(s, ',')
    ensures forall w | w in Words(s) :: Token(w)
  {
    WordsAreWords(s);
  }

  lemma RouteIsCanonical(w: seq<string>)
    ensures ParseRoute(w).Some? ==> CanonicalRoute(ParseRoute(w).value)
  {
    hide IsIpv4, ParseU32;
  }

  lemma DhcpIsCanonical(r: PushReply, w: seq<string>)
    requires Canonical(r) && (forall i | 0 <= i < |w| :: Token(w[i]))
    ensures Canonical(ParseDhcp(r, w))
  {
    hide Token, CanonicalOption, CanonicalRoute, CanonicalPair;
  }

  lemma ApplyIsCanonical(r: PushReply, part: string, w: seq<string>)
    requires Canonical(r) && (forall i | 0 <= i < |w| :: Token(w[i]))
    requires KeywordOf(w) == OtherWord ==> CanonicalOption(part)
    ensures Canonical(Apply(r, part, w))
  {
    hide KeywordOf, Apply, Canonical, Token, CanonicalOption;
    if KeywordOf(w) in {RouteWord, DhcpWord, OtherWord} {
      ListsStayCanonical(r, part, w);
    } else {
      FieldsStayCanonical(r, part, w);
    }
  }

  lemma ListsStayCanonical(r: PushReply, part: string, w: seq<string>)
    requires Canonical(r) && (forall i | 0 <= i < |w| :: Token(w[i])) && KeywordOf(w) in {RouteWord, DhcpWord, OtherWord}
    requires KeywordOf(w) == OtherWord ==> CanonicalOption(part)
    ensures Canonical(Apply(r, part, w))
  {
    RouteIsCanonical(w);
    DhcpIsCanonical(r, w);
    hide Token, CanonicalOption, CanonicalRoute, CanonicalPair, KeywordOf, ParseRoute, ParseDhcp;
  }

  lemma FieldsStayCanonical(r: PushReply, part: string, w: seq<string>)
    requires Canonical(r) && (forall i | 0 <= i < |w| :: Token(w[i])) && KeywordOf(w) !in {RouteWord, DhcpWord, OtherWord}
    ensures Canonical(Apply(r, part, w))
  {
    hide Canonical, Token, CanonicalOption, CanonicalRoute, CanonicalPair, KeywordOf, ParseTopology, ParseNumber;
    PairIsCanonical(w);
    FieldsDecide(r, Apply(r, part, w));
  }

  lemma FieldsDecide(r: PushReply, r': PushReply)
    requires Canonical(r) && r'.routes == r.routes && r'.dns == r.dns && r'.dnsSearch == r.dnsSearch && r'.options == r.options
    ensures Canonical(r') <==>
              && (r'.ifconfig.Some? ==> CanonicalPair(r'.ifconfig.value))
              && (r'.ifconfigIpv6.Some? ==> Token(r'.ifconfigIpv6.value))
              && (r'.routeGateway.Some? ==> Token(r'.routeGateway.value))
    ensures && (r.ifconfig.Some? ==> CanonicalPair(r.ifconfig.value))
            && (r.ifconfigIpv6.Some? ==> Token(r.ifconfigIpv6.value))
            && (r.routeGateway.Some? ==> Token(r.routeGateway.value))
  {
    hide Token, CanonicalOption, CanonicalRoute, CanonicalPair;
  }

  lemma PairIsCanonical(w: seq<string>)
    requires forall i | 0 <= i < |w| :: Token(w[i])
    ensures CanonicalPair((if |w| > 1 then w[1] else "", if |w| > 2 then w[2] else ""))
  {
    hide SpaceFree, Free;
  }

  lemma PartIsCanonical(r: PushReply, raw: string)
    requires Canonical(r) && Free(raw, ',')
    ensures Canonical(ParsePart(r, raw))
  {
    hide Canonical, Apply, KeywordOf, Trim, Words;
    var part := Trim(raw);
    TrimIsTrimmed(raw);
    WordsAreTokens(part);
    if part != "" {
      ApplyIsCanonical(r, part, Words(part));
    }
  }

  lemma {:induction false} PartsAreCanonical(parts: seq<string>)
    requires forall p | p in parts :: Free(p, ',')
    ensures Canonical(ParseParts(DEFAULT, parts))
  {
    hide ParsePart;
    if parts != [] {
      var n := |parts| - 1;
      assert forall p | p in parts[..n] :: p in parts;
      PartsAreCanonical(parts[..n]);
      PartIsCanonical(ParseParts(DEFAULT, parts[..n]), parts[n]);
    }
  }

  /** Whatever text it is given, the parser returns a canonical reply. */
  lemma ParsedIsCanonical(s: string)
    ensures Canonical(Parsed(s))
  {
    hide Canonical;
    var body := if PREFIX <= s then s[|PREFIX|..] else s;
    SplitIsFree(body, ',');
    PartsAreCanonical(Split(body, ','));
  }

  // ---------------------------------------------------------------- one directive

  /** Spaces around a directive do not matter, and the text of a known one does not either. */
  lemma PartByWords(r: PushReply, raw: string)
    requires KeywordOf(Words(raw)) != OtherWord
    ensures ParsePart(r, raw) == Apply(r, "", Words(raw))
  {
    assert Words("") == [];
    hide KeywordOf, Trim, Words, Apply;
    WordsOfTrim(raw);
    EmptyKeyword();
    KnownWordDecides(r, Trim(raw), Words(raw));
  }

  lemma KnownWordDecides(r: PushReply, part: string, w: seq<string>)
    requires KeywordOf(w) != OtherWord
    ensures Apply(r, part, w) == Apply(r, "", w)
  {
    hide KeywordOf, ParseTopology, ParseRoute, ParseDhcp, ParseNumber;
  }

  lemma EmptyKeyword()
    ensures KeywordOf([]) == OtherWord
  {
  }

  lemma LineByWords(r: PushReply, ws: seq<string>)
    requires KeywordOf(ws) != OtherWord && forall w | w in ws :: Token(w)
    ensures ParsePart(r, Line(ws)) == Apply(r, "", ws)
  {
    hide KeywordOf;
    WordsJoin(ws);
    PartByWords(r, Line(ws));
  }

  lemma {:induction false} JoinIsFree(ws: seq<string>)
    requires forall w | w in ws :: Free(w, ',')
    ensures Free(Line(ws), ',')
  {
    if |ws| == 1 {
      assert ws[0] in ws;
    } else if |ws| > 1 {
      assert ws[0] in ws && forall w | w in ws[1..] :: w in ws;
      JoinIsFree(ws[1..]);
      var rest := Line(ws[1..]);
      assert Line(ws) == ws[0] + [' '] + rest;
    }
  }

  lemma {:induction false} PartsAppend(r: PushReply, a: seq<string>, b: seq<string>)
    ensures ParseParts(r, a + b) == ParseParts(ParseParts(r, a), b)
  {
    hide ParsePart;
    if b == [] {
      assert a + b == a;
    } else {
      var n := |b| - 1;
      assert (a + b)[..|a + b| - 1] == a + b[..n];
      PartsAppend(r, a, b[..n]);
    }
  }

  lemma OnePart(r: PushReply, p: string)
    ensures ParseParts(r, [p]) == ParsePart(r, p)
  {
    assert [p][..0] == [];
  }

  lemma PrintIsToken(n: nat)
    ensures Token(Print(n))
  {
  }

  lemma {:induction false} SplitCovers(s: string, sep: char, x: char)
    requires x in s && x != sep
    ensures exists p :: p in Split(s, sep) && x in p
  {
    var rest, all := Split(s[1..], sep), Split(s, sep);
    assert all == if s[0] == sep then [""] + rest else [[s[0]] + rest[0]] + rest[1..];
    if x != s[0] {
      assert x in s[1..];
      SplitCovers(s[1..], sep, x);
    }
    hide Split;
    if x == s[0] {
      assert x in all[0];
    } else {
      var p :| p in rest && x in p;
      var i :| 0 <= i < |rest| && rest[i] == p;
      if s[0] == sep {
        assert all[i + 1] == p;
      } else if i == 0 {
        assert x in all[0];
      } else {
        assert all[i] == p;
      }
    }
  }

  /** An address is made of digits and dots. */
  lemma Ipv4IsToken(s: string)
    requires IsIpv4(s)
    ensures Token(s) && s != "vpn_gateway"
  {
    forall x | x in s
      ensures IsDigit(x) || x == '.'
    {
      if x != '.' {
        SplitCovers(s, '.', x);
      }
    }
    assert Split("", '.') == [""];
    assert s != "" && s[0] in s;
  }

  // ---------------------------------------------------------------- each directive is read back

  predicate Tokens(ws: seq<string>) { forall i | 0 <= i < |ws| :: Token(ws[i]) }

  predicate IsKeyword(s: string, k: Keyword) { Token(s) && KeywordOf([s]) == k }

  lemma TopologyWordIsKeyword()
    ensures IsKeyword("topology", TopologyWord)
  {
  }

  lemma IfconfigWordIsKeyword()
    ensures IsKeyword("ifconfig", IfconfigWord)
  {
  }

  lemma IfconfigIpv6WordIsKeyword()
    ensures IsKeyword("ifconfig-ipv6", IfconfigIpv6Word)
  {
  }

  lemma RouteWordIsKeyword()
    ensures IsKeyword("route", RouteWord)
  {
  }

  lemma RouteGatewayWordIsKeyword()
    ensures IsKeyword("route-gateway", RouteGatewayWord)
  {
  }

  lemma RedirectWordIsKeyword()
    ensures IsKeyword("redirect-gateway", RedirectWord)
  {
  }

  lemma DhcpWordIsKeyword()
    ensures IsKeyword("dhcp-option", DhcpWord)
  {
  }

  lemma PingWordIsKeyword()
    ensures IsKeyword("ping", PingWord)
  {
  }

  lemma PingRestartWordIsKeyword()
    ensures IsKeyword("ping-restart", PingRestartWord)
  {
  }

  lemma KeywordOfHead(keyword: string, args: seq<string>)
    ensures KeywordOf([keyword] + args) == KeywordOf([keyword])
  {
    assert ([keyword] + args)[0] == keyword;
  }

  /** A line with a known keyword and token arguments is read word by word. */
  lemma KnownLine(r: PushReply, keyword: string, k: Keyword, args: seq<string>)
    requires IsKeyword(keyword, k) && k != OtherWord && Tokens(args)
    ensures ParsePart(r, Line([keyword] + args)) == Apply(r, "", [keyword] + args)
    ensures KeywordOf([keyword] + args) == k
  {
    KeywordOfHead(keyword, args);
    hide KeywordOf, Token, Apply, ParsePart, Line;
    LineByWords(r, [keyword] + args);
  }

  lemma ArgLine(r: PushReply, keyword: string, k: Keyword, v: string)
    requires IsKeyword(keyword, k) && k != OtherWord && Token(v)
    ensures ParsePart(r, Line([keyword, v])) == Apply(r, "", [keyword, v])
    ensures KeywordOf([keyword, v]) == k
  {
    hide IsKeyword, KeywordOf, Token, Apply, ParsePart, Line;
    KnownLine(r, keyword, k, [v]);
    assert [keyword] + [v] == [keyword, v];
  }

  lemma TopologyReadsBack(r: PushReply, t: Topology)
    ensures ParsePart(r, Line(["topology", TopologyName(t)])) == r.(topology := t)
  {
    assert Token(TopologyName(t));
    hide IsKeyword, KeywordOf, ParseTopology, TopologyName, Token, ParsePart, Line;
    TopologyWordIsKeyword();
    ArgLine(r, "topology", TopologyWord, TopologyName(t));
    TopologyRoundTrip(t);
  }

  lemma TopologyRoundTrip(t: Topology)
    ensures ParseTopology(TopologyName(t)) == t
  {
    var name := TopologyName(t);
    assert Lower(name) == name;
  }

  lemma WordsOfThree(keyword: string, a: string, b: string)
    requires Token(keyword) && SpaceFree(a) && SpaceFree(b)
    ensures Words(Line([keyword, a, b]))
         == [keyword] + ((if a == "" then [] else [a]) + (if b == "" then [] else [b]))
  {
    var line := Line([keyword, a, b]);
    assert [keyword, a, b][1..] == [a, b] && [a, b][1..] == [b];
    assert Line([b]) == b && Line([a, b]) == a + [' '] + b;
    assert line == keyword + [' '] + (a + [' '] + b);
    hide Words, SpaceFree, Free, Join;
    WordsAppend(keyword, ' ', a + [' '] + b);
    WordsAppend(a, ' ', b);
    WordsOfWord(keyword);
    WordsOfWord(a);
    WordsOfWord(b);
  }

  lemma IfconfigReadsBack(r: PushReply, p: (string, string))
    requires CanonicalPair(p)
    ensures ParsePart(r, Line(["ifconfig", p.0, p.1])) == r.(ifconfig := Some(p))
  {
    hide KeywordOf, Words, SpaceFree, Free, ParsePart, Line;
    var args := (if p.0 == "" then [] else [p.0]) + (if p.1 == "" then [] else [p.1]);
    IfconfigWordIsKeyword();
    assert SpaceFree("") by { NoSpaces(); }
    WordsOfThree("ifconfig", p.0, p.1);
    KeywordOfHead("ifconfig", args);
    PartByWords(r, Line(["ifconfig", p.0, p.1]));
    PairReadsBack(r, "ifconfig", p);
  }

  lemma NoSpaces()
    ensures SpaceFree("")
  {
  }

  lemma PairReadsBack(r: PushReply, keyword: string, p: (string, string))
    requires CanonicalPair(p) && IsKeyword(keyword, IfconfigWord)
    ensures var args := (if p.0 == "" then [] else [p.0]) + (if p.1 == "" then [] else [p.1]);
            Apply(r, "", [keyword] + args) == r.(ifconfig := Some(p))
  {
    var args := (if p.0 == "" then [] else [p.0]) + (if p.1 == "" then [] else [p.1]);
    KeywordOfHead(keyword, args);
    hide KeywordOf, SpaceFree, Free;
  }

  lemma Ipv6ReadsBack(r: PushReply, v: string)
    requires Token(v)
    ensures ParsePart(r, Line(["ifconfig-ipv6", v])) == r.(ifconfigIpv6 := Some(v))
  {
    hide IsKeyword, KeywordOf, Token, ParsePart, Line;
    IfconfigIpv6WordIsKeyword();
    ArgLine(r, "ifconfig-ipv6", IfconfigIpv6Word, v);
  }

  lemma RouteReadsBack(r: PushReply, route: PushRoute)
    requires CanonicalRoute(route)
    ensures ParsePart(r, Line(RouteWords(route))) == r.(routes := r.routes + [route])
  {
    var w := RouteWords(route);
    assert w == ["route"] + w[1..];
    hide IsKeyword, KeywordOf, Token, ParsePart, Line, RouteWords, ParseRoute;
    RouteWordsAreTokens(route);
    RouteWordIsKeyword();
    KnownLine(r, "route", RouteWord, w[1..]);
    RouteRoundTrip(route);
  }

  lemma RouteWordsAreTokens(route: PushRoute)
    requires CanonicalRoute(route)
    ensures Tokens(RouteWords(route))
  {
    Ipv4IsToken(route.network);
    Ipv4IsToken(route.netmask);
    if route.gateway.Some? {
      Ipv4IsToken(route.gateway.value);
    }
    if route.metric.Some? {
      PrintIsToken(route.metric.value);
    }
    assert Token("route") && Token("vpn_gateway");
    hide Token, Print;
  }

  /** A route is recovered from its words. */
  lemma RouteRoundTrip(route: PushRoute)
    requires CanonicalRoute(route)
    ensures ParseRoute(RouteWords(route)) == Some(route)
  {
    if route.gateway.Some? {
      Ipv4IsToken(route.gateway.value);
    }
    if route.metric.Some? {
      ParsePrint(route.metric.value);
    }
    hide IsIpv4, ParseU32, Print;
  }

  lemma RouteGatewayReadsBack(r: PushReply, v: string)
    requires Token(v)
    ensures ParsePart(r, Line(["route-gateway", v])) == r.(routeGateway := Some(v))
  {
    hide IsKeyword, KeywordOf, Token, ParsePart, Line;
    RouteGatewayWordIsKeyword();
    ArgLine(r, "route-gateway", RouteGatewayWord, v);
  }

  lemma Def1IsToken()
    ensures Token("def1")
  {
  }

  lemma RedirectReadsBack(r: PushReply)
    ensures ParsePart(r, Line(["redirect-gateway", "def1"])) == r.(redirectGateway := true)
  {
    hide IsKeyword, KeywordOf, Token, ParsePart, Line;
    Def1IsToken();
    RedirectWordIsKeyword();
    ArgLine(r, "redirect-gateway", RedirectWord, "def1");
  }

  lemma DhcpReadsBack(r: PushReply, kind: string, v: string)
    requires Token(v) && Token(kind)
    ensures ParsePart(r, Line(["dhcp-option", kind, v])) == ParseDhcp(r, ["dhcp-option", kind, v])
  {
    hide IsKeyword, KeywordOf, Token, ParsePart, Line, ParseDhcp;
    DhcpWordIsKeyword();
    KnownLine(r, "dhcp-option", DhcpWord, [kind, v]);
    assert ["dhcp-option"] + [kind, v] == ["dhcp-option", kind, v];
  }

  lemma PingReadsBack(r: PushReply, n: u32)
    ensures ParsePart(r, Line(["ping", Print(n)])) == r.(ping := n)
  {
    hide IsKeyword, KeywordOf, Token, ParsePart, Line, Print, ParseU32;
    PrintIsToken(n);
    ParsePrint(n);
    PingWordIsKeyword();
    ArgLine(r, "ping", PingWord, Print(n));
  }

  lemma PingRestartReadsBack(r: PushReply, n: u32)
    ensures ParsePart(r, Line(["ping-restart", Print(n)])) == r.(pingRestart := n)
  {
    hide IsKeyword, KeywordOf, Token, ParsePart, Line, Print, ParseU32;
    PrintIsToken(n);
    ParsePrint(n);
    PingRestartWordIsKeyword();
    ArgLine(r, "ping-restart", PingRestartWord, Print(n));
  }

  lemma OptionReadsBack(r: PushReply, o: string)
    requires CanonicalOption(o)
    ensures ParsePart(r, o) == r.(options := r.options + [o])
  {
    hide KeywordOf, Words;
    TrimOfTrimmed(o);
  }

  // ---------------------------------------------------------------- whole replies

  lemma {:induction false} RoutesReadBack(r: PushReply, routes: seq<PushRoute>)
    requires forall x | x in routes :: CanonicalRoute(x)
    ensures ParseParts(r, RouteLines(routes)) == r.(routes := r.routes + routes)
  {
    hide CanonicalRoute, ParsePart, Line, RouteWords;
    if routes == [] {
      assert r.routes + routes == r.routes;
    } else {
      var n := |routes| - 1;
      assert routes[n] in routes && forall x | x in routes[..n] :: x in routes;
      RoutesReadBack(r, routes[..n]);
      assert RouteLines(routes)[..n] == RouteLines(routes[..n]);
      RouteReadsBack(r.(routes := r.routes + routes[..n]), routes[n]);
      assert r.routes + routes == r.routes + routes[..n] + [routes[n]];
    }
  }

  lemma DhcpLinesShape(kind: string, values: seq<string>)
    ensures var lines, n := DhcpLines(kind, values), |values| - 1;
            if values == [] then lines == []
            else |lines| == n + 1 && lines[..n] == DhcpLines(kind, values[..n])
                 && lines[n] == Line(["dhcp-option", kind, values[n]])
  {
    hide Line;
  }

  lemma DnsLine(r: PushReply, v: string)
    requires Token(v)
    ensures ParsePart(r, Line(["dhcp-option", "DNS", v])) == r.(dns := r.dns + [v])
  {
    hide ParsePart, Line;
    assert Token("DNS");
    DhcpReadsBack(r, "DNS", v);
  }

  lemma {:induction false} DnsReadsBack(r: PushReply, values: seq<string>)
    requires forall x | x in values :: Token(x)
    ensures ParseParts(r, DhcpLines("DNS", values)) == r.(dns := r.dns + values)
  {
    hide Token, ParsePart, DhcpLines;
    var lines, n := DhcpLines("DNS", values), |values| - 1;
    DhcpLinesShape("DNS", values);
    if values == [] {
      assert r.dns + values == r.dns;
    } else {
      assert values[n] in values && forall x | x in values[..n] :: x in values;
      DnsReadsBack(r, values[..n]);
      DnsLine(r.(dns := r.dns + values[..n]), values[n]);
      assert r.dns + values == r.dns + values[..n] + [values[n]];
    }
  }

  lemma DomainLine(r: PushReply, v: string)
    requires Token(v)
    ensures ParsePart(r, Line(["dhcp-option", "DOMAIN", v])) == r.(dnsSearch := r.dnsSearch + [v])
  {
    hide ParsePart, Line;
    assert Token("DOMAIN");
    DhcpReadsBack(r, "DOMAIN", v);
  }

  lemma {:induction false} DomainsReadBack(r: PushReply, values: seq<string>)
    requires forall x | x in values :: Token(x)
    ensures ParseParts(r, DhcpLines("DOMAIN", values)) == r.(dnsSearch := r.dnsSearch + values)
  {
    hide Token, ParsePart, DhcpLines;
    var lines, n := DhcpLines("DOMAIN", values), |values| - 1;
    DhcpLinesShape("DOMAIN", values);
    if values == [] {
      assert r.dnsSearch + values == r.dnsSearch;
    } else {
      assert values[n] in values && forall x | x in values[..n] :: x in values;
      DomainsReadBack(r, values[..n]);
      DomainLine(r.(dnsSearch := r.dnsSearch + values[..n]), values[n]);
      assert r.dnsSearch + values == r.dnsSearch + values[..n] + [values[n]];
    }
  }

  lemma {:induction false} OptionsReadBack(r: PushReply, values: seq<string>)
    requires forall x | x in values :: CanonicalOption(x)
    ensures ParseParts(r, values) == r.(options := r.options + values)
  {
    hide CanonicalOption, ParsePart;
    if values == [] {
      assert r.options + values == r.options;
    } else {
      var n := |values| - 1;
      assert values[n] in values && forall x | x in values[..n] :: x in values;
      OptionsReadBack(r, values[..n]);
      OptionReadsBack(r.(options := r.options + values[..n]), values[n]);
      assert r.options + values == r.options + values[..n] + [values[n]];
    }
  }

  /** One optional directive, then what follows. */
  lemma PartsOptional(r: PushReply, present: bool, line: string, rest: seq<string>)
    ensures ParseParts(r, (if present then [line] else []) + rest)
         == ParseParts(if present then ParsePart(r, line) else r, rest)
  {
    hide ParsePart;
    PartsAppend(r, if present then [line] else [], rest);
    OnePart(r, line);
  }

  lemma AddressesReadBack(r: PushReply)
    requires Canonical(r)
    ensures ParseParts(DEFAULT, AddressLines(r))
         == DEFAULT.(topology := r.topology, ifconfig := r.ifconfig, ifconfigIpv6 := r.ifconfigIpv6)
  {
    hide ParsePart, Line, TopologyName, CanonicalPair, Token;
    var line0 := Line(["topology", TopologyName(r.topology)]);
    var line1 := if r.ifconfig.Some? then Line(["ifconfig", r.ifconfig.value.0, r.ifconfig.value.1]) else "";
    var line2 := if r.ifconfigIpv6.Some? then Line(["ifconfig-ipv6", r.ifconfigIpv6.value]) else "";
    var part2 := if r.ifconfigIpv6.Some? then [line2] else [];
    var d0 := DEFAULT.(topology := r.topology);
    TopologyReadsBack(DEFAULT, r.topology);
    var d1 := d0.(ifconfig := r.ifconfig);
    if r.ifconfig.Some? {
      IfconfigReadsBack(d0, r.ifconfig.value);
    }
    if r.ifconfigIpv6.Some? {
      Ipv6ReadsBack(d1, r.ifconfigIpv6.value);
    }
    var part1 := if r.ifconfig.Some? then [line1] else [];
    assert AddressLines(r) == (if true then [line0] else []) + (part1 + part2);
    PartsOptional(DEFAULT, true, line0, part1 + part2);
    PartsOptional(d0, r.ifconfig.Some?, line1, part2);
    assert part2 == (if r.ifconfigIpv6.Some? then [line2] else []) + [];
    PartsOptional(d1, r.ifconfigIpv6.Some?, line2, []);
  }

  lemma GatewaysReadBack(d: PushReply, r: PushReply)
    requires Canonical(r) && d.routeGateway.None? && !d.redirectGateway
    ensures ParseParts(d, GatewayLines(r)) == d.(routeGateway := r.routeGateway, redirectGateway := r.redirectGateway)
  {
    hide ParsePart, Line, Token;
    var line1 := if r.routeGateway.Some? then Line(["route-gateway", r.routeGateway.value]) else "";
    var line2 := Line(["redirect-gateway", "def1"]);
    var d1 := d.(routeGateway := r.routeGateway);
    if r.routeGateway.Some? {
      RouteGatewayReadsBack(d, r.routeGateway.value);
    }
    RedirectReadsBack(d1);
    var part2 := if r.redirectGateway then [line2] else [];
    PartsOptional(d, r.routeGateway.Some?, line1, part2);
    assert part2 == (if r.redirectGateway then [line2] else []) + [];
    PartsOptional(d1, r.redirectGateway, line2, []);
  }

  lemma PingsReadBack(d: PushReply, r: PushReply)
    ensures ParseParts(d, PingLines(r)) == d.(ping := r.ping, pingRestart := r.pingRestart)
  {
    hide ParsePart, Line, Print;
    var line1, line2 := Line(["ping", Print(r.ping)]), Line(["ping-restart", Print(r.pingRestart)]);
    assert PingLines(r) == [line1] + [line2];
    PartsAppend(d, [line1], [line2]);
    PingReadsBack(d, r.ping);
    OnePart(d, line1);
    PingRestartReadsBack(d.(ping := r.ping), r.pingRestart);
    OnePart(d.(ping := r.ping), line2);
  }

  lemma DirectivesReadBack(r: PushReply)
    requires Canonical(r)
    ensures ParseParts(DEFAULT, Directives(r)) == r
  {
    hide ParseParts, AddressLines, RouteLines, GatewayLines, DhcpLines, PingLines, CanonicalRoute, CanonicalOption,
         CanonicalPair, Token;
    var a, b, c, d := AddressLines(r), RouteLines(r.routes), GatewayLines(r), DhcpLines("DNS", r.dns);
    var e, f := DhcpLines("DOMAIN", r.dnsSearch), PingLines(r);
    PartsAppend(DEFAULT, a + b + c + d + e + f, r.options);
    PartsAppend(DEFAULT, a + b + c + d + e, f);
    PartsAppend(DEFAULT, a + b + c + d, e);
    PartsAppend(DEFAULT, a + b + c, d);
    PartsAppend(DEFAULT, a + b, c);
    PartsAppend(DEFAULT, a, b);
    AddressesReadBack(r);
    var r1 := DEFAULT.(topology := r.topology, ifconfig := r.ifconfig, ifconfigIpv6 := r.ifconfigIpv6);
    RoutesReadBack(r1, r.routes);
    var r2 := r1.(routes := r.routes);
    assert [] + r.routes == r.routes;
    GatewaysReadBack(r2, r);
    var r3 := r2.(routeGateway := r.routeGateway, redirectGateway := r.redirectGateway);
    DnsReadsBack(r3, r.dns);
    assert [] + r.dns == r.dns;
    var r4 := r3.(dns := r.dns);
    DomainsReadBack(r4, r.dnsSearch);
    assert [] + r.dnsSearch == r.dnsSearch;
    var r5 := r4.(dnsSearch := r.dnsSearch);
    PingsReadBack(r5, r);
    OptionsReadBack(r5.(ping := r.ping, pingRestart := r.pingRestart), r.options);
    assert [] + r.options == r.options;
  }

  // ---------------------------------------------------------------- no directive contains a comma

  ghost predicate AllFree(parts: seq<string>) { forall i | 0 <= i < |parts| :: Free(parts[i], ',') }

  lemma RouteLinesAreFree(routes: seq<PushRoute>)
    requires forall x | x in routes :: CanonicalRoute(x)
    ensures AllFree(RouteLines(routes))
  {
    hide CanonicalRoute, RouteWords;
    forall i | 0 <= i < |routes|
      ensures Free(RouteLines(routes)[i], ',')
    {
      assert routes[i] in routes;
      RouteWordsAreTokens(routes[i]);
      JoinIsFree(RouteWords(routes[i]));
    }
  }

  lemma LineIsFree(ws: seq<string>)
    requires forall i | 0 <= i < |ws| :: Free(ws[i], ',')
    ensures Free(Line(ws), ',')
  {
    JoinIsFree(ws);
  }

  lemma DhcpLinesAreFree(kind: string, values: seq<string>)
    requires Token(kind) && forall x | x in values :: Token(x)
    ensures AllFree(DhcpLines(kind, values))
  {
    assert Free("dhcp-option", ',');
    forall i | 0 <= i < |values|
      ensures Free(DhcpLines(kind, values)[i], ',')
    {
      assert values[i] in values;
      hide Free;
      LineIsFree(["dhcp-option", kind, values[i]]);
    }
  }

  lemma TwoWordsAreFree(a: string, b: string)
    requires Token(a) && Token(b)
    ensures Free(Line([a, b]), ',')
  {
    hide Line, SpaceFree;
    LineIsFree([a, b]);
  }

  lemma AddressLinesAreFree(r: PushReply)
    requires Canonical(r)
    ensures AllFree(AddressLines(r))
  {
    assert Token(TopologyName(r.topology)) && Free("", ',');
    hide Free, Line, TopologyName, SpaceFree, KeywordOf;
    TopologyWordIsKeyword();
    TwoWordsAreFree("topology", TopologyName(r.topology));
    if r.ifconfig.Some? {
      IfconfigWordIsKeyword();
      LineIsFree(["ifconfig", r.ifconfig.value.0, r.ifconfig.value.1]);
    }
    if r.ifconfigIpv6.Some? {
      IfconfigIpv6WordIsKeyword();
      TwoWordsAreFree("ifconfig-ipv6", r.ifconfigIpv6.value);
    }
  }

  lemma GatewayLinesAreFree(r: PushReply)
    requires Canonical(r)
    ensures AllFree(GatewayLines(r))
  {
    assert Token("def1");
    hide Free, Line, SpaceFree, KeywordOf;
    RedirectWordIsKeyword();
    TwoWordsAreFree("redirect-gateway", "def1");
    if r.routeGateway.Some? {
      RouteGatewayWordIsKeyword();
      TwoWordsAreFree("route-gateway", r.routeGateway.value);
    }
  }

  lemma PingLinesAreFree(r: PushReply)
    ensures AllFree(PingLines(r))
  {
    hide Free, Line, Print, SpaceFree, KeywordOf;
    PrintIsToken(r.ping);
    PrintIsToken(r.pingRestart);
    PingWordIsKeyword();
    PingRestartWordIsKeyword();
    TwoWordsAreFree("ping", Print(r.ping));
    TwoWordsAreFree("ping-restart", Print(r.pingRestart));
  }

  lemma DirectivesAreFree(r: PushReply)
    requires Canonical(r)
    ensures forall p | p in Directives(r) :: Free(p, ',')
  {
    AddressLinesAreFree(r);
    GatewayLinesAreFree(r);
    PingLinesAreFree(r);
    RouteLinesAreFree(r.routes);
    assert Token("DNS") && Token("DOMAIN");
    DhcpLinesAreFree("DNS", r.dns);
    DhcpLinesAreFree("DOMAIN", r.dnsSearch);
    hide Free, Token, AddressLines, GatewayLines, PingLines, RouteLines, DhcpLines, CanonicalRoute, CanonicalPair, KeywordOf, Words;
  }

  /** The fields of a route stand in this order: network, netmask, gateway, metric. */
  lemma RouteFields(network: string, netmask: string, gateway: string, metric: u32)
    requires IsIpv4(network) && IsIpv4(netmask) && IsIpv4(gateway) && metric <= 9999
    ensures ParseRoute(["route", network, netmask, gateway, Print(metric)])
            == Some(PushRoute(network, netmask, Some(gateway), Some(metric)))
  {
    ParsePrint(metric);
    Ipv4IsToken(gateway);
    hide IsIpv4, ParseU32, Print;
  }

  /** What a reply says when its text says nothing. */
  lemma Defaults()
    ensures Parsed("") == PushReply([], None, None, [], [], false, None, Subnet, 10, 60, [])
  {
    assert Split("", ',') == [""];
    OnePart(DEFAULT, "");
    assert Trim("") == "";
  }

  /** Every canonical reply is recovered from its text, with all lists in order. */
  lemma RoundTrip(r: PushReply)
    requires Canonical(r)
    ensures Parsed(Encoded(r)) == r
  {
    hide Directives, Canonical, ParseParts, Split, Join, Encoded;
    SomeDirective(r);
    DirectivesAreFree(r);
    DirectivesReadBack(r);
    SplitJoin(Directives(r), ',');
    EncodedStarts(r);
  }

  lemma EncodedStarts(r: PushReply)
    ensures Encoded(r) == PREFIX + Join(Directives(r), ',')
    ensures PREFIX <= Encoded(r) && Encoded(r)[|PREFIX|..] == Join(Directives(r), ',')
  {
    SomeDirective(r);
    hide Directives;
    var ds := Directives(r);
    assert (["PUSH_REPLY"] + ds)[1..] == ds;
  }

  lemma SomeDirective(r: PushReply)
    ensures Directives(r) != []
  {
  }

  /** A reply survives printing and parsing exactly if it is canonical. */
  lemma RoundTripIff(r: PushReply)
    ensures Parsed(Encoded(r)) == r <==> Canonical(r)
  {
    ParsedIsCanonical(Encoded(r));
    if Canonical(r) {
      RoundTrip(r);
    }
  }

  /** Reading any text, printing what was read and reading it again changes nothing. */
  lemma ParsingIsStable(s: string)
    ensures Parsed(Encoded(Parsed(s))) == Parsed(s)
  {
    ParsedIsCanonical(s);
    RoundTrip(Parsed(s));
  }
}
