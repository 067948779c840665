/** Printing an address and parsing the text gives the address back. */
module AddressLaws {
  import opened Endian
  import opened Text
  import opened Address

  // ------------------------------------------------------------------
  // Numbers
  // ------------------------------------------------------------------

  lemma DecIsDecimal(n: nat)
    ensures AllDecimal(Dec(n)) && AllHex(Dec(n)) && Dec(n) != ""
    ensures ValueFrom(0, Dec(n), 10) == n
    ensures forall c :: c in Dec(n) ==> c != ':' && c != '.' && c != '[' && c != ']'
  {
    hide ValueFrom, Number;
    ValueOfNumber(n, 10);
    NumberDigits(n, 10);
  }

  lemma HexIsHex(n: u16)
    ensures 1 <= |Hex(n)| <= 4 && AllHex(Hex(n))
    ensures GroupValue(Hex(n)) == n
    ensures forall c :: c in Hex(n) ==> c != ':' && c != ']'
  {
    hide ValueFrom, Number;
    HexLength(n);
    ValueOfNumber(n, 16);
    NumberDigits(n, 16);
  }

  lemma PortRoundTrip(p: u16)
    ensures ParsedPort(Dec(p)) == Some(p)
  {
    hide ValueFrom, Number;
    DecIsDecimal(p);
    DecimalLength(p);
  }

  /** Reading a digit first is the same as reading the number from where that digit leaves it. */
  lemma {:induction false} ValueFromFront(v: nat, c: char, s: string)
    requires IsHex(c) && AllHex(s) && AllHex([c] + s)
    ensures ValueFrom(v, [c] + s, 10) == ValueFrom(v * 10 + HexValue(c), s, 10)
  {
    if s == "" {
      assert ([c] + s)[..0] == "";
    } else {
      assert ([c] + s)[..|s|] == [c] + s[..|s| - 1];
      ValueFromFront(v, c, s[..|s| - 1]);
    }
  }

  lemma {:induction false} ValueGrows(v: nat, s: string)
    requires AllHex(s)
    ensures v <= ValueFrom(v, s, 10)
  {
    if s == "" {
    } else {
      ValueGrows(v, s[..|s| - 1]);
      assert IsHex(s[|s| - 1]);
    }
  }

  // ------------------------------------------------------------------
  // IPv4
  // ------------------------------------------------------------------

  lemma {:induction false} ScanDigits(o: seq<byte>, v: byte, b: bool, s: string, rest: string)
    requires AllDecimal(s) && AllHex(s) && s != "" && ValueFrom(v, s, 10) <= 255
    ensures ScannedAll(Scan(o, v, b), s + rest) == ScannedAll(Scan(o, ValueFrom(v, s, 10), true), rest)
    decreases |s|
  {
    hide ValueFrom;
    var c, t := s[0], s[1..];
    assert s == [c] + t;
    assert IsDecimal(c) && IsHex(c);
    ValueFromFront(v, c, t);
    ValueGrows(v * 10 + HexValue(c), t);
    assert (s + rest)[1..] == t + rest;
    if t == "" {
      assert t + rest == rest;
      assert ValueFrom(v * 10 + HexValue(c), t, 10) == v * 10 + HexValue(c) by { ValueOfNothing(v * 10 + HexValue(c)); }
    } else {
      ScanDigits(o, v * 10 + HexValue(c), true, t, rest);
    }
  }

  lemma ValueOfNothing(v: nat)
    ensures ValueFrom(v, "", 10) == v
  {
  }

  lemma ScanOctet(o: seq<byte>, n: byte, rest: string)
    ensures ScannedAll(Scan(o, 0, false), Dec(n) + rest) == ScannedAll(Scan(o, n, true), rest)
  {
    hide ScannedAll, ValueFrom, Number;
    DecIsDecimal(n);
    ScanDigits(o, 0, false, Dec(n), rest);
  }

  lemma ScanDot(o: seq<byte>, n: byte, rest: string)
    requires |o| < 3
    ensures ScannedAll(Scan(o, n, true), "." + rest) == ScannedAll(Scan(o + [n], 0, false), rest)
  {
    var s := "." + rest;
    assert s[0] == '.' && s[1..] == rest;
    assert Scanned(Scan(o, n, true), '.') == Some(Scan(o + [n], 0, false));
    assert ScannedAll(Scan(o, n, true), s) == ScannedAll(Scan(o + [n], 0, false), s[1..]);
  }

  function V4Host(a: byte, b: byte, c: byte, d: byte): string {
    Dec(a) + ("." + (Dec(b) + ("." + (Dec(c) + ("." + Dec(d))))))
  }

  lemma V4HostParses(a: byte, b: byte, c: byte, d: byte)
    ensures ParsedV4(V4Host(a, b, c, d)) == Some([a, b, c, d])
  {
    hide ScannedAll, Number;
    ScanOctet([], a, "." + (Dec(b) + ("." + (Dec(c) + ("." + Dec(d))))));
    ScanDot([], a, Dec(b) + ("." + (Dec(c) + ("." + Dec(d)))));
    ScanOctet([a], b, "." + (Dec(c) + ("." + Dec(d))));
    ScanDot([a], b, Dec(c) + ("." + Dec(d)));
    ScanOctet([a, b], c, "." + Dec(d));
    ScanDot([a, b], c, Dec(d));
    ScanOctet([a, b, c], d, "");
    assert Dec(d) + "" == Dec(d);
    assert [] + [a] == [a] && [a] + [b] == [a, b] && [a, b] + [c] == [a, b, c] && [a, b, c] + [d] == [a, b, c, d];
    ScanEnd(Scan([a, b, c], d, true));
  }

  lemma ScanEnd(st: Scan)
    ensures ScannedAll(st, "") == Some(st)
  {
  }

  /** A colon between a host without one and a port. */
  lemma OnlyColon(host: string, port: string)
    requires ':' !in host && ':' !in port && port != "" && AllDecimal(port)
    ensures var text := host + ":" + port;
            && HasPort(text)
            && LastIndexOf(text, ':') == Some(|host|)
            && text[..|host|] == host && text[|host| + 1..] == port
  {
    hide IndexOf, LastIndexOf;
    var text := host + ":" + port;
    assert text[|host|] == ':' && text[|host| + 1..] == port;
    assert forall i :: 0 <= i < |host| ==> text[i] == host[i] && host[i] in host;
    assert forall i :: |host| < i < |text| ==> text[i] == port[i - |host| - 1] && port[i - |host| - 1] in port;
    assert ':' in text;
  }

  lemma V4HostShape(a: byte, b: byte, c: byte, d: byte)
    ensures ':' !in V4Host(a, b, c, d) && '.' in V4Host(a, b, c, d)
    ensures V4Host(a, b, c, d) != "" && V4Host(a, b, c, d)[0] != '['
  {
    hide Number, AllDecimal, AllHex, ValueFrom;
    DecIsDecimal(a);
    DecIsDecimal(b);
    DecIsDecimal(c);
    DecIsDecimal(d);
    var host := V4Host(a, b, c, d);
    assert host[0] == Dec(a)[0] && Dec(a)[0] in Dec(a);
    assert host[|Dec(a)|] == '.';
  }

  lemma V4TextShape(a: byte, b: byte, c: byte, d: byte, port: u16)
    ensures AddressText(V4(a, b, c, d, port), 8, 0) == V4Host(a, b, c, d) + ":" + Dec(port)
  {
    hide Number;
  }

  lemma V4RoundTrip(a: byte, b: byte, c: byte, d: byte, port: u16)
    ensures Parsed(AddressText(V4(a, b, c, d, port), 8, 0)) == Some(V4(a, b, c, d, port))
  {
    hide Number, HasPort, IndexOf, LastIndexOf, ParsedV4, ParsedPort, AllDecimal, AllHex, ValueFrom, V4Host,
         AddressText;
    var host := V4Host(a, b, c, d);
    V4TextShape(a, b, c, d, port);
    V4HostShape(a, b, c, d);
    DecIsDecimal(port);
    OnlyColon(host, Dec(port));
    V4HostParses(a, b, c, d);
    PortRoundTrip(port);
  }

  // ------------------------------------------------------------------
  // IPv6
  // ------------------------------------------------------------------

  /** No closing bracket, no two colons in a row, and no colon at either end. */
  predicate Tight(s: string) {
    && ']' !in s
    && (forall i :: 0 <= i && i + 1 < |s| ==> !(s[i] == ':' && s[i + 1] == ':'))
    && (s != "" ==> s[0] != ':' && s[|s| - 1] != ':')
  }

  lemma TightJoin(h: string, t: string)
    requires h != "" && ':' !in h && ']' !in h && t != "" && Tight(t)
    ensures Tight(h + ":" + t)
  {
    var s := h + ":" + t;
    assert forall i :: 0 <= i < |h| ==> s[i] == h[i] && h[i] in h;
    assert forall i :: |h| < i < |s| ==> s[i] == t[i - |h| - 1];
  }

  lemma TightGroup(x: u16)
    ensures Tight(Hex(x))
  {
    hide Number, AllHex, GroupValue;
    HexIsHex(x);
    assert forall i :: 0 <= i < |Hex(x)| ==> Hex(x)[i] in Hex(x);
  }

  lemma {:induction false} JoinIsTight(g: seq<u16>)
    ensures g == [] <==> Join(g) == ""
    ensures Tight(Join(g))
  {
    if g == [] {
    } else {
      hide Number, Tight, AllHex, GroupValue;
      HexIsHex(g[0]);
      TightGroup(g[0]);
      if |g| > 1 {
        JoinIsTight(g[1..]);
        TightJoin(Hex(g[0]), Join(g[1..]));
      }
    }
  }

  /** A group before a colon is found whole. */
  lemma GroupBeforeColon(x: u16, rest: string)
    ensures var s := Hex(x) + ":" + rest;
            IndexOf(s, ':') == |Hex(x)| && s[..|Hex(x)|] == Hex(x) && s[|Hex(x)| + 1..] == rest
  {
    hide Number, AllHex, GroupValue, IndexOf;
    var h := Hex(x);
    var s := h + ":" + rest;
    HexIsHex(x);
    assert forall i :: 0 <= i < |h| ==> s[i] == h[i] && h[i] in h;
    assert s[|h|] == ':';
    IndexIs(s, ':', |h|);
  }

  lemma GroupAlone(x: u16)
    ensures IndexOf(Hex(x), ':') == |Hex(x)| && Hex(x)[..|Hex(x)|] == Hex(x)
  {
    hide Number, AllHex, GroupValue;
    HexIsHex(x);
    IndexAbsent(Hex(x), ':');
  }

  lemma FirstGroupParses(x: u16, rest: string, room: nat)
    requires rest != "" && room >= 1
    ensures ParsedGroups(Hex(x) + ":" + rest, room) == Behind([x], ParsedGroups(rest, room - 1))
  {
    hide Number, AllHex, GroupValue, IndexOf, Tight;
    HexIsHex(x);
    GroupBeforeColon(x, rest);
  }

  lemma LastGroupParses(x: u16, room: nat)
    requires room >= 1
    ensures ParsedGroups(Hex(x), room) == Some([x])
  {
    hide Number, AllHex, GroupValue, IndexOf, Tight;
    HexIsHex(x);
    GroupAlone(x);
  }

  lemma {:induction false} GroupsRoundTrip(g: seq<u16>, room: nat)
    requires 1 <= |g| <= room
    ensures ParsedGroups(Join(g), room) == Some(g)
  {
    hide Number, ParsedGroups, Tight;
    if |g| == 1 {
      LastGroupParses(g[0], room);
      assert g == [g[0]];
    } else {
      JoinIsTight(g[1..]);
      FirstGroupParses(g[0], Join(g[1..]), room);
      GroupsRoundTrip(g[1..], room - 1);
      assert g == [g[0]] + g[1..];
    }
  }

  lemma GroupsOrNoneRoundTrip(g: seq<u16>)
    requires |g| <= 8
    ensures GroupsOrNone(Join(g)) == Some(g)
  {
    hide ParsedGroups, Number;
    JoinIsTight(g);
    if g != [] {
      GroupsRoundTrip(g, 8);
    }
  }

  lemma NoDoubleColon(s: string)
    requires Tight(s)
    ensures DoubleColon(s) == |s|
  {
    hide DoubleColon;
    var k := DoubleColon(s);
  }

  lemma DoubleColonAt(head: string, tail: string)
    requires Tight(head)
    ensures DoubleColon(head + "::" + tail) == |head|
  {
    hide DoubleColon;
    var s := head + "::" + tail;
    var k := DoubleColon(s);
    assert s[|head|] == ':' && s[|head| + 1] == ':';
    assert forall i :: 0 <= i < |head| ==> s[i] == head[i];
  }

  lemma PlainHostRoundTrip(g: Groups)
    ensures ParsedV6(Join(g)) == Some(g) && ']' !in Join(g)
  {
    hide Join, GroupsOrNone, DoubleColon;
    JoinIsTight(g);
    NoDoubleColon(Join(g));
    GroupsOrNoneRoundTrip(g);
  }

  lemma AroundColons(head: string, tail: string)
    ensures var host := head + "::" + tail;
            host[..|head|] == head && host[|head| + 2..] == tail
    ensures Tight(head) && Tight(tail) ==> ']' !in head + "::" + tail
  {
  }

  lemma BothSidesParse(front: string, back: string, head: seq<u16>, tail: seq<u16>)
    requires DoubleColon(front + "::" + back) == |front|
    requires GroupsOrNone(front) == Some(head) && GroupsOrNone(back) == Some(tail)
    requires |head| + |tail| <= 7
    ensures ParsedV6(front + "::" + back) == Some(head + ZeroGroups(8 - |head| - |tail|) + tail)
  {
    hide GroupsOrNone, DoubleColon, ZeroGroups, Tight;
    AroundColons(front, back);
  }

  lemma CompressedHostRoundTrip(head: seq<u16>, tail: seq<u16>)
    requires |head| + |tail| <= 7
    ensures var host := Join(head) + "::" + Join(tail);
            && ParsedV6(host) == Some(head + ZeroGroups(8 - |head| - |tail|) + tail)
            && ']' !in host
  {
    hide Join, GroupsOrNone, DoubleColon, ZeroGroups, Tight, ParsedV6;
    JoinIsTight(head);
    JoinIsTight(tail);
    DoubleColonAt(Join(head), Join(tail));
    GroupsOrNoneRoundTrip(head);
    GroupsOrNoneRoundTrip(tail);
    BothSidesParse(Join(head), Join(tail), head, tail);
    AroundColons(Join(head), Join(tail));
  }

  lemma HostRoundTrip(g: Groups, start: nat, length: nat)
    requires Compressible(g, start, length)
    ensures start + length <= 8
    ensures ParsedV6(HostText(g, start, length)) == Some(g)
    ensures ']' !in HostText(g, start, length)
  {
    hide Join, ParsedV6;
    if length == 0 {
      PlainHostRoundTrip(g);
    } else {
      var head, tail := g[..start], g[start + length..];
      CompressedHostRoundTrip(head, tail);
      assert g == head + ZeroGroups(8 - |head| - |tail|) + tail;
    }
  }

  lemma V6RoundTrip(g: Groups, port: u16, scope: u32, start: nat, length: nat)
    requires Compressible(g, start, length)
    ensures Parsed(AddressText(V6(g, port, scope), start, length)) == Some(V6(g, port, 0))
  {
    hide HostText, Number, ParsedV6, ParsedPort, IndexOf, Compressible;
    HostRoundTrip(g, start, length);
    var host := HostText(g, start, length);
    var text := AddressText(V6(g, port, scope), start, length);
    PortRoundTrip(port);
    assert text == "[" + host + "]" + (":" + Dec(port));
    var close := 1 + |host|;
    assert text[close] == ']' && text[0] == '[' && text[1..close] == host && text[close + 1..] == ":" + Dec(port);
    assert forall i :: 0 < i < close ==> text[i] == host[i - 1] && host[i - 1] in host;
    IndexIs(text, ']', close);
    assert (":" + Dec(port))[1..] == Dec(port);
  }

  // ------------------------------------------------------------------
  // Main results
  // ------------------------------------------------------------------

  /** The text of an address parses back to it exactly when it is IPv4 or has scope id 0. */
  lemma TextRoundTrip(a: IpAddress, text: string)
    requires IsTextOf(text, a)
    ensures Parsed(text) == Some(a) <==> (a.V6? ==> a.scope == 0)
  {
    hide AddressText, Parsed, Compressible;
    var start: nat, length: nat :|
      && start + length <= 8
      && (a.V6? ==> Compressible(a.groups, start, length))
      && text == AddressText(a, start, length);
    match a {
      case V4(x, y, z, w, port) =>
        V4RoundTrip(x, y, z, w, port);
        V4TextFixed(a, start, length);
      case V6(groups, port, scope) => V6RoundTrip(groups, port, scope, start, length);
    }
  }

  lemma V4TextFixed(a: IpAddress, start: nat, length: nat)
    requires a.V4? && start + length <= 8
    ensures AddressText(a, start, length) == AddressText(a, 8, 0)
  {
  }

  /** Every accepted text normalises: its printed form is accepted as the same address. */
  lemma NormalisationIsIdempotent(text: string, a: IpAddress, printed: string)
    requires Parsed(text) == Some(a) && IsTextOf(printed, a)
    ensures Parsed(printed) == Some(a)
  {
    hide ParsedV4, ParsedV6, ParsedPort, IsTextOf;
    assert a.V6? ==> a.scope == 0;
    TextRoundTrip(a, printed);
  }

  /** A printed address always ends in a colon and its port; an IPv6 host stands in brackets. */
  lemma TextIs(a: IpAddress, text: string)
    requires IsTextOf(text, a)
    ensures a.V4? ==>
              text == Dec(a.a) + "." + Dec(a.b) + "." + Dec(a.c) + "." + Dec(a.d) + ":" + Dec(a.port)
    ensures a.V6? ==> exists host :: IsHostOf(host, a.groups) && text == "[" + host + "]:" + Dec(a.port)
  {
    hide Number, HostText, Compressible;
    var start: nat, length: nat :|
      && start + length <= 8
      && (a.V6? ==> Compressible(a.groups, start, length))
      && text == AddressText(a, start, length);
    if a.V6? {
      assert IsHostOf(HostText(a.groups, start, length), a.groups);
    }
  }

  /** An address has one text. */
  lemma TextIsUnique(a: IpAddress, s: string, t: string)
    requires IsTextOf(s, a) && IsTextOf(t, a)
    ensures s == t
  {
    hide HostText, Compressible, Number;
    var s1: nat, n1: nat :| s1 + n1 <= 8 && (a.V6? ==> Compressible(a.groups, s1, n1)) && s == AddressText(a, s1, n1);
    var s2: nat, n2: nat :| s2 + n2 <= 8 && (a.V6? ==> Compressible(a.groups, s2, n2)) && t == AddressText(a, s2, n2);
    if a.V6? {
      CompressionIsUnique(a.groups, s1, n1, s2, n2);
    }
  }

  /**
   * The groups are printed as sections 4.1 and 4.3 of RFC 5952 ask: one to four lower-case
   * hexadecimal digits that denote the group, without a leading zero unless the group is zero.
   */
  lemma GroupsAreCanonical(x: u16)
    ensures 1 <= |Hex(x)| <= 4
    ensures forall c :: c in Hex(x) ==> c in "0123456789abcdef"
    ensures Hex(x)[0] == '0' <==> Hex(x) == "0"
    ensures GroupValue(Hex(x)) == x
  {
    hide GroupValue, Number;
    HexIsHex(x);
    NumberDigits(x, 16);
    NumberIsShortest(x, 16);
    if Hex(x) == "0" {
      assert Hex(x)[0] == '0';
    }
  }
}
