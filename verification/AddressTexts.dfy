/** Which texts are accepted as whole addresses, and the method that accepts them. */
module AddressTexts {
  import opened Endian
  import opened Text
  import opened Address
  import opened AddressLaws
  import opened AddressGrammar

  // ------------------------------------------------------------------
  // The grammar
  // ------------------------------------------------------------------

  /** One to five decimal digits of this value. */
  predicate IsPort(s: string, p: u16) {
    1 <= |s| <= 5 && AllDecimal(s) && AllHex(s) && ValueFrom(0, s, 10) == p
  }

  ghost predicate IsV4Host(host: string, octets: seq<byte>) {
    exists a, b, c, d :: IsQuad(host, a, b, c, d, octets)
  }

  ghost predicate IsPortedV4(text: string, host: string, port: string, octets: seq<byte>, p: u16) {
    text == host + ":" + port && IsV4Host(host, octets) && IsPort(port, p)
  }

  /** Four octets joined by dots, alone with port 0, or with one colon and a port behind them. */
  ghost predicate IsV4Text(text: string, octets: seq<byte>, p: u16) {
    || (IsV4Host(text, octets) && p == 0)
    || exists host, port :: IsPortedV4(text, host, port, octets, p)
  }

  ghost predicate IsBracketed(text: string, host: string, rest: string, g: Groups) {
    text == "[" + host + "]" + rest && IsHost(host, g)
  }

  /** What may stand behind the bracket: nothing for port 0, or a colon and a port. */
  ghost predicate IsPortSuffix(rest: string, p: u16) {
    (rest == "" && p == 0) || (rest != "" && rest[0] == ':' && IsPort(rest[1..], p))
  }

  /** A bare host with port 0, or a host in brackets, alone with port 0 or with a colon and a port behind it. */
  ghost predicate IsV6Text(text: string, g: Groups, p: u16) {
    || (IsHost(text, g) && p == 0)
    || exists host, rest :: IsBracketed(text, host, rest, g) && IsPortSuffix(rest, p)
  }

  // ------------------------------------------------------------------
  // The shape of hosts and ports
  // ------------------------------------------------------------------

  lemma PortIsAccepted(s: string, p: u16)
    ensures ParsedPort(s) == Some(p) <==> IsPort(s, p)
  {
    if AllDecimal(s) {
      forall i | 0 <= i < |s| ensures IsHex(s[i]) { assert IsDecimal(s[i]); }
    }
  }

  lemma PortHasNoColon(s: string, p: u16)
    requires IsPort(s, p)
    ensures ':' !in s && s != "" && AllDecimal(s)
  {
    forall i | 0 <= i < |s| ensures s[i] != ':' { assert IsDecimal(s[i]); }
  }

  lemma OctetHas(s: string)
    requires IsOctet(s)
    ensures s != "" && ':' !in s && s[0] != '['
  {
    assert IsDecimal(s[0]);
    forall i | 0 <= i < |s| ensures s[i] != ':' { assert IsDecimal(s[i]); }
  }

  lemma V4HostShape(host: string, octets: seq<byte>)
    requires IsV4Host(host, octets)
    ensures '.' in host && ':' !in host && host != "" && host[0] != '['
  {
    hide IsOctet, AddressGrammar.OctetOf;
    var a, b, c, d :| IsQuad(host, a, b, c, d, octets);
    var ds := [a, b, c, d];
    assert IsOctet(ds[0]) && IsOctet(ds[1]) && IsOctet(ds[2]) && IsOctet(ds[3]);
    OctetHas(a);
    OctetHas(b);
    OctetHas(c);
    OctetHas(d);
    assert host[0] == a[0] && host[|a|] == '.';
  }

  /** Hexadecimal digits and colons only. */
  predicate PlainChars(s: string) {
    forall i :: 0 <= i < |s| ==> IsHex(s[i]) || s[i] == ':'
  }

  lemma {:induction false} GroupsArePlain(ps: seq<string>, g: seq<u16>)
    requires AreGroups(ps, g)
    ensures PlainChars(WithColons(ps))
  {
    hide IsHex, GroupValue;
    if |ps| <= 1 {
      if |ps| == 1 {
        assert IsGroup(ps[0]);
      }
    } else {
      assert IsGroup(ps[0]);
      GroupsArePlain(ps[1..], g[1..]);
    }
  }

  lemma PartIsPlain(s: string, g: seq<u16>)
    requires IsPart(s, g)
    ensures PlainChars(s)
  {
    hide AreGroups, WithColons, IsHex;
    if s != "" {
      var ps :| AreGroups(ps, g) && 1 <= |ps| <= 8 && s == WithColons(ps);
      GroupsArePlain(ps, g);
    }
  }

  lemma PlainHas(s: string)
    requires PlainChars(s)
    ensures '.' !in s && '[' !in s && ']' !in s
  {
  }

  /** Two colons rule out a port suffix. */
  lemma TwoColons(text: string, i: nat, j: nat)
    requires i < j < |text| && text[i] == ':' && text[j] == ':'
    ensures !HasPort(text) && ':' in text
  {
    hide IndexOf, LastIndexOf, AllDecimal;
    var colon := LastIndexOf(text, ':');
    assert colon.Some?;
  }

  lemma EightGroupsHaveColons(host: string, g: Groups)
    requires IsPart(host, g)
    ensures exists i: nat, j: nat :: i < j < |host| && host[i] == ':' && host[j] == ':'
  {
    hide AllHex, GroupValue;
    var ps :| AreGroups(ps, g) && 1 <= |ps| <= 8 && host == WithColons(ps);
    var tail := WithColons(ps[1..]);
    assert host == ps[0] + ":" + tail && tail == ps[1] + ":" + WithColons(ps[2..]) by {
      assert ps[1..][0] == ps[1] && ps[1..][1..] == ps[2..];
    }
    var i, j := |ps[0]|, |ps[0]| + 1 + |ps[1]|;
    assert host[i] == ':' && host[j] == tail[|ps[1]|] == ':';
  }

  lemma V6HostShape(host: string, g: Groups)
    requires IsHost(host, g)
    ensures '.' !in host && ']' !in host && ':' in host && !HasPort(host) && host != "" && host[0] != '['
  {
    hide IsPart, HasPort, PlainChars;
    if IsPart(host, g) {
      EightGroupsHaveColons(host, g);
      PartIsPlain(host, g);
      var i: nat, j: nat :| i < j < |host| && host[i] == ':' && host[j] == ':';
      TwoColons(host, i, j);
    } else {
      var front, back, head, tail :| IsCompressed(host, front, back, head, tail, g);
      PartIsPlain(front, head);
      PartIsPlain(back, tail);
      AroundIsPlain(front, back);
      TwoColons(host, |front|, |front| + 1);
    }
    PlainHas(host);
    assert host[0] in host;
  }

  lemma AroundIsPlain(front: string, back: string)
    requires PlainChars(front) && PlainChars(back)
    ensures PlainChars(front + "::" + back)
  {
    hide IsHex;
  }

  // ------------------------------------------------------------------
  // Both directions
  // ------------------------------------------------------------------

  lemma HostIsAccepted(host: string, port: u16, octets: seq<byte>)
    requires |octets| == 4
    ensures ParsedHost(host, port) == Some(V4(octets[0], octets[1], octets[2], octets[3], port)) <==>
            IsV4Host(host, octets)
  {
    hide ParsedV4, ParsedV6, IsQuad;
    V4AcceptsQuads(host, octets);
    if IsV4Host(host, octets) {
      V4HostShape(host, octets);
    }
    if ParsedHost(host, port) == Some(V4(octets[0], octets[1], octets[2], octets[3], port)) {
      assert ParsedV4(host).value == octets;
    }
  }

  lemma V6HostIsAccepted(host: string, port: u16, g: Groups)
    ensures ParsedHost(host, port) == Some(V6(g, port, 0)) <==> IsHost(host, g)
  {
    hide ParsedV4, ParsedV6, IsHost;
    V6AcceptsHosts(host, g);
    if IsHost(host, g) {
      V6HostShape(host, g);
    }
  }

  /** Text with a port suffix, taken apart. */
  lemma PortedParts(text: string)
    requires HasPort(text)
    ensures var colon := LastIndexOf(text, ':').value;
            && text == text[..colon] + ":" + text[colon + 1..]
            && ':' !in text[..colon]
  {
    hide IndexOf, LastIndexOf, AllDecimal;
  }

  /** Text is accepted as an IPv4 address if and only if it is one with port 0, or with its port behind a colon. */
  lemma V4TextsAreAccepted(text: string, octets: seq<byte>, p: u16)
    requires |octets| == 4
    ensures Parsed(text) == Some(V4(octets[0], octets[1], octets[2], octets[3], p)) <==> IsV4Text(text, octets, p)
  {
    hide ParsedPort, ParsedHost, HasPort, IndexOf, LastIndexOf, IsV4Host, IsPort, AllDecimal;
    var a := Some(V4(octets[0], octets[1], octets[2], octets[3], p));
    if Parsed(text) == a {
      assert text == "" || text[0] != '[' by { BracketsAreV6(text); }
      if HasPort(text) {
        PortedParts(text);
        var colon := LastIndexOf(text, ':').value;
        var host, port := text[..colon], text[colon + 1..];
        HostPort(host, ParsedPort(port).value);
        PortIsAccepted(port, p);
        HostIsAccepted(host, p, octets);
        assert IsPortedV4(text, host, port, octets, p);
      } else {
        HostPort(text, 0);
        HostIsAccepted(text, 0, octets);
      }
    }
    if IsV4Host(text, octets) && p == 0 {
      V4HostShape(text, octets);
      NoPort(text);
      HostIsAccepted(text, 0, octets);
    }
    if host, port :| IsPortedV4(text, host, port, octets, p) {
      V4HostShape(host, octets);
      PortHasNoColon(port, p);
      OnlyColon(host, port);
      PortIsAccepted(port, p);
      HostIsAccepted(host, p, octets);
    }
  }

  lemma BracketsAreV6(text: string)
    ensures text != "" && text[0] == '[' && Parsed(text).Some? ==> Parsed(text).value.V6?
  {
  }

  /** A host is given the port it comes with. */
  lemma HostPort(host: string, port: u16)
    ensures var r := ParsedHost(host, port);
            r.Some? ==> r.value.port == port && (r.value.V6? ==> r.value.scope == 0)
  {
    hide ParsedV4, ParsedV6;
  }

  lemma NoPort(text: string)
    requires ':' !in text
    ensures !HasPort(text)
  {
  }

  /** Behind the bracket. */
  lemma BracketedIsAccepted(text: string, host: string, rest: string)
    requires text == "[" + host + "]" + rest && ']' !in host && host != ""
    ensures ParsedBracketed(text) ==
            var port := if rest == "" then Some(0) else if rest[0] != ':' then None else ParsedPort(rest[1..]);
            if port.None? || ParsedV6(host).None? then None else Some(V6(ParsedV6(host).value, port.value, 0))
  {
    hide IndexOf, ParsedPort, ParsedV6;
    var close := 1 + |host|;
    assert text[close] == ']';
    forall i | 0 <= i < close ensures text[i] != ']' {
      if i > 0 {
        assert text[i] == host[i - 1] && host[i - 1] in host;
      }
    }
    IndexIs(text, ']', close);
    assert text[1..close] == host && text[close + 1..] == rest;
  }

  lemma BracketedOpens(text: string) returns (host: string, rest: string)
    requires text != "" && text[0] == '[' && ParsedBracketed(text).Some?
    ensures text == "[" + host + "]" + rest && ']' !in host && host != ""
  {
    hide IndexOf, ParsedPort, ParsedV6;
    var close := IndexOf(text, ']');
    host, rest := text[1..close], text[close + 1..];
    NoEmptyHost();
    assert text == "[" + host + "]" + rest;
  }

  lemma NoEmptyHost()
    ensures ParsedV6("") == None
  {
  }

  lemma SuffixIsAccepted(rest: string, p: u16)
    ensures var port := if rest == "" then Some(0) else if rest[0] != ':' then None else ParsedPort(rest[1..]);
            port == Some(p) <==> IsPortSuffix(rest, p)
  {
    hide ParsedPort, IsPort;
    if rest != "" {
      PortIsAccepted(rest[1..], p);
    }
  }

  /** Text is accepted as an IPv6 address if and only if it is a bare host with port 0 or a bracketed one. */
  lemma V6TextsAreAccepted(text: string, g: Groups, p: u16)
    ensures Parsed(text) == Some(V6(g, p, 0)) <==> IsV6Text(text, g, p)
  {
    hide ParsedPort, ParsedHost, ParsedBracketed, ParsedV6, HasPort, IsHost, IsPortSuffix, IndexOf, LastIndexOf;
    if Parsed(text) == Some(V6(g, p, 0)) {
      if text != "" && text[0] == '[' {
        var host, rest := BracketedOpens(text);
        BracketedIsAccepted(text, host, rest);
        V6AcceptsHosts(host, g);
        SuffixIsAccepted(rest, p);
        assert IsBracketed(text, host, rest, g);
      } else if HasPort(text) {
        PortedParts(text);
        var colon := LastIndexOf(text, ':').value;
        HostPort(text[..colon], ParsedPort(text[colon + 1..]).value);
        V6HostIsAccepted(text[..colon], p, g);
        V6HostShape(text[..colon], g);
      } else {
        HostPort(text, 0);
        V6HostIsAccepted(text, 0, g);
      }
    }
    if IsHost(text, g) && p == 0 {
      V6HostShape(text, g);
      V6HostIsAccepted(text, 0, g);
    }
    if host, rest :| IsBracketed(text, host, rest, g) && IsPortSuffix(rest, p) {
      V6HostShape(host, g);
      V6AcceptsHosts(host, g);
      BracketedIsAccepted(text, host, rest);
      SuffixIsAccepted(rest, p);
    }
  }

  lemma ScopeIsNone(text: string)
    ensures Parsed(text).Some? && Parsed(text).value.V6? ==> Parsed(text).value.scope == 0
  {
    hide ParsedPort, ParsedV4, ParsedV6, HasPort, IndexOf, LastIndexOf;
  }

  // ------------------------------------------------------------------
  // The method
  // ------------------------------------------------------------------

  lemma TextsAreAccepted(text: string)
    ensures forall a, b, c, d, p :: Parsed(text) == Some(V4(a, b, c, d, p)) <==> IsV4Text(text, [a, b, c, d], p)
    ensures forall g, p, scope :: Parsed(text) == Some(V6(g, p, scope)) <==> scope == 0 && IsV6Text(text, g, p)
  {
    hide Parsed, IsV4Text, IsV6Text;
    forall a, b, c, d, p
      ensures Parsed(text) == Some(V4(a, b, c, d, p)) <==> IsV4Text(text, [a, b, c, d], p)
    {
      V4TextsAreAccepted(text, [a, b, c, d], p);
    }
    forall g, p, scope
      ensures Parsed(text) == Some(V6(g, p, scope)) <==> scope == 0 && IsV6Text(text, g, p)
    {
      V6TextsAreAccepted(text, g, p);
      ScopeIsNone(text);
    }
  }

  method FromText(text: string) returns (r: Option<IpAddress>)
    ensures r == Parsed(text)
    ensures forall a, b, c, d, p :: r == Some(V4(a, b, c, d, p)) <==> IsV4Text(text, [a, b, c, d], p)
    ensures forall g, p, scope :: r == Some(V6(g, p, scope)) <==> scope == 0 && IsV6Text(text, g, p)
  {
    hide ParsedBracketed, ParsedHost, ParsedPort, AllDecimal, IndexOf, LastIndexOf, IsV4Text, IsV6Text;
    TextsAreAccepted(text);
    if text != "" && text[0] == '[' {
      r := FromBracketed(text);
      return;
    }
    var colon := LastIndexOf(text, ':');
    var host, port := text, Some(0);
    if colon.Some? {
      var suffix := text[colon.value + 1..];
      if suffix != "" && AllDecimal(suffix) && IndexOf(text, ':') == colon.value {
        port := ParsedPort(suffix);
        if port.None? {
          return None;
        }
        host := text[..colon.value];
      }
    }
    r := FromHost(host, port.value);
  }
}
