/** Which texts are accepted as hosts, said without the scans that accept them. */
module AddressGrammar {
  import opened Endian
  import opened Text
  import opened Address
  import opened AddressLaws

  // ------------------------------------------------------------------
  // IPv4
  // ------------------------------------------------------------------

  /** A decimal number of any length, leading zeros included, that denotes an octet. */
  predicate IsOctet(s: string) {
    s != "" && AllDecimal(s) && AllHex(s) && ValueFrom(0, s, 10) <= 255
  }

  function OctetOf(s: string): byte
    requires IsOctet(s)
  {
    ValueFrom(0, s, 10)
  }

  /** Finished octets, each with the dot behind it. */
  function Dotted(ds: seq<string>): string {
    if ds == [] then "" else Dotted(ds[..|ds| - 1]) + ds[|ds| - 1] + "."
  }

  ghost predicate Denotes(ds: seq<string>, octets: seq<byte>) {
    |ds| == |octets| && forall i :: 0 <= i < |ds| ==> IsOctet(ds[i]) && OctetOf(ds[i]) == octets[i]
  }

  /** Text read so far is finished octets with their dots, then the digits of the number being read. */
  ghost predicate Explained(st: Scan, text: string, ds: seq<string>, digits: string) {
    && Denotes(ds, st.octets)
    && text == Dotted(ds) + digits
    && (st.inNumber <==> digits != "")
    && (st.inNumber ==> IsOctet(digits) && OctetOf(digits) == st.value)
    && (!st.inNumber ==> st.value == 0)
  }

  /** One more character that the scan takes is a dot behind a number or a digit of one. */
  lemma ScanExplains(st: Scan, c: char, text: string, ds: seq<string>, digits: string)
    returns (ds': seq<string>, digits': string)
    requires Explained(st, text, ds, digits) && Scanned(st, c).Some?
    ensures Explained(Scanned(st, c).value, text + [c], ds', digits')
  {
    if c == '.' {
      ds', digits' := ds + [digits], "";
      assert (ds + [digits])[..|ds|] == ds;
      assert text + [c] == Dotted(ds) + digits + "." + "";
    } else {
      ds', digits' := ds, digits + [c];
      assert digits'[..|digits|] == digits;
      assert text + [c] == Dotted(ds) + digits';
      DigitsGrow(digits, c);
    }
  }

  lemma DigitsGrow(digits: string, c: char)
    requires AllHex(digits) && IsDecimal(c)
    ensures AllHex(digits + [c])
    ensures ValueFrom(0, digits + [c], 10) == ValueFrom(0, digits, 10) * 10 + HexValue(c)
  {
    assert (digits + [c])[..|digits|] == digits;
  }

  lemma {:induction false} ScanAllExplains(st: Scan, s: string, text: string, ds: seq<string>, digits: string)
    returns (ds': seq<string>, digits': string)
    requires Explained(st, text, ds, digits) && ScannedAll(st, s).Some?
    ensures Explained(ScannedAll(st, s).value, text + s, ds', digits')
    decreases |s|
  {
    hide Explained, Scanned;
    if s == "" {
      ds', digits' := ds, digits;
      assert text + s == text;
    } else {
      ds', digits' := ScanExplains(st, s[0], text, ds, digits);
      ds', digits' := ScanAllExplains(Scanned(st, s[0]).value, s[1..], text + [s[0]], ds', digits');
      assert text + [s[0]] + s[1..] == text + s;
    }
  }

  /** Four octets joined by dots. */
  ghost predicate IsQuad(text: string, a: string, b: string, c: string, d: string, octets: seq<byte>) {
    && Denotes([a, b, c, d], octets)
    && text == a + ("." + (b + ("." + (c + ("." + d)))))
  }

  /** A number scanned from its start is that number, whatever follows. */
  lemma OctetScans(o: seq<byte>, s: string, rest: string)
    requires IsOctet(s)
    ensures ScannedAll(Scan(o, 0, false), s + rest) == ScannedAll(Scan(o, OctetOf(s), true), rest)
  {
    ScanDigits(o, 0, false, s, rest);
  }

  lemma QuadIsAccepted(text: string, a: string, b: string, c: string, d: string, octets: seq<byte>)
    requires IsQuad(text, a, b, c, d, octets)
    ensures ParsedV4(text) == Some(octets)
  {
    hide ScannedAll, IsOctet, ValueFrom;
    var ds := [a, b, c, d];
    assert forall i :: 0 <= i < 4 ==> IsOctet(ds[i]) && OctetOf(ds[i]) == octets[i];
    var (w, x, y, z) := (octets[0], octets[1], octets[2], octets[3]);
    assert ds[0] == a && ds[1] == b && ds[2] == c && ds[3] == d;
    OctetScans([], a, "." + (b + ("." + (c + ("." + d)))));
    ScanDot([], w, b + ("." + (c + ("." + d))));
    OctetScans([w], b, "." + (c + ("." + d)));
    ScanDot([w], x, c + ("." + d));
    OctetScans([w, x], c, "." + d);
    ScanDot([w, x], y, d);
    OctetScans([w, x, y], d, "");
    assert d + "" == d;
    assert [] + [w] == [w] && [w] + [x] == [w, x] && [w, x] + [y] == [w, x, y] && [w, x, y] + [z] == octets;
    ScanEnd(Scan([w, x, y], z, true));
  }

  lemma DottedThree(a: string, b: string, c: string, d: string)
    ensures Dotted([a, b, c]) + d == a + ("." + (b + ("." + (c + ("." + d)))))
  {
    assert [a, b, c][..2] == [a, b] && [a, b][..1] == [a] && [a][..0] == [];
    assert Dotted([a]) == "" + a + ".";
    assert Dotted([a, b]) == Dotted([a]) + b + ".";
    assert Dotted([a, b, c]) == Dotted([a, b]) + c + ".";
  }

  /**
   * A host is accepted as IPv4 if and only if it is four numbers of at most 255, joined by dots; these are
   * the octets.
   */
  lemma V4AcceptsQuads(text: string, octets: seq<byte>)
    ensures ParsedV4(text) == Some(octets) <==> exists a, b, c, d :: IsQuad(text, a, b, c, d, octets)
  {
    hide IsQuad, ScannedAll;
    if ParsedV4(text) == Some(octets) {
      var st := ScannedAll(Scan([], 0, false), text).value;
      assert "" == Dotted([]) + "";
      var ds, digits := ScanAllExplains(Scan([], 0, false), text, "", [], "");
      assert "" + text == text;
      QuadOf(text, st, ds, digits, octets);
    }
    if a, b, c, d :| IsQuad(text, a, b, c, d, octets) {
      QuadIsAccepted(text, a, b, c, d, octets);
    }
  }

  lemma QuadOf(text: string, st: Scan, ds: seq<string>, digits: string, octets: seq<byte>)
    requires Explained(st, text, ds, digits) && st.inNumber && |st.octets| == 3 && octets == st.octets + [st.value]
    ensures IsQuad(text, ds[0], ds[1], ds[2], digits, octets)
  {
    hide IsOctet, ValueFrom, Dotted;
    assert ds == [ds[0], ds[1], ds[2]];
    DottedThree(ds[0], ds[1], ds[2], digits);
    var all := [ds[0], ds[1], ds[2], digits];
    forall i | 0 <= i < 4 ensures IsOctet(all[i]) && OctetOf(all[i]) == octets[i] {
      if i < 3 {
        assert all[i] == ds[i];
      }
    }
  }

  // ------------------------------------------------------------------
  // IPv6 groups
  // ------------------------------------------------------------------

  /** One to four hexadecimal digits of either case. */
  predicate IsGroup(s: string) {
    1 <= |s| <= 4 && AllHex(s)
  }

  ghost predicate AreGroups(ps: seq<string>, g: seq<u16>) {
    |ps| == |g| && forall i :: 0 <= i < |ps| ==> IsGroup(ps[i]) && GroupValue(ps[i]) == g[i]
  }

  function WithColons(ps: seq<string>): string {
    if ps == [] then "" else if |ps| == 1 then ps[0] else ps[0] + ":" + WithColons(ps[1..])
  }

  lemma HexHasNoColon(p: string)
    requires AllHex(p)
    ensures ':' !in p && ']' !in p
  {
    forall i | 0 <= i < |p| ensures p[i] != ':' && p[i] != ']' { assert IsHex(p[i]); }
  }

  lemma GroupFirst(p: string, rest: string)
    requires IsGroup(p)
    ensures IndexOf(p, ':') == |p|
    ensures var s := p + ":" + rest;
            IndexOf(s, ':') == |p| && s[..|p|] == p && s[|p| + 1..] == rest
  {
    HexHasNoColon(p);
    IndexAbsent(p, ':');
    var s := p + ":" + rest;
    forall i | 0 <= i < |p| ensures s[i] != ':' { assert s[i] == p[i]; }
    IndexIs(s, ':', |p|);
  }

  lemma {:induction false} ColonsAreText(ps: seq<string>, g: seq<u16>)
    requires AreGroups(ps, g) && ps != []
    ensures WithColons(ps) != ""
  {
    assert IsGroup(ps[0]);
  }

  lemma {:induction false} GroupsAreAccepted(ps: seq<string>, g: seq<u16>, room: nat)
    requires AreGroups(ps, g) && 1 <= |ps| <= room
    ensures ParsedGroups(WithColons(ps), room) == Some(g)
    decreases |ps|
  {
    hide AllHex, GroupValue, IndexOf;
    var p := ps[0];
    assert IsGroup(p);
    if |ps| == 1 {
      GroupFirst(p, "");
      assert p[..|p|] == p;
      assert g == [g[0]];
    } else {
      GroupsAreAccepted(ps[1..], g[1..], room - 1);
      ColonsAreText(ps[1..], g[1..]);
      GroupFirst(p, WithColons(ps[1..]));
      assert [g[0]] + g[1..] == g;
    }
  }

  lemma OneMoreGroup(p: string, ps: seq<string>, g: seq<u16>)
    requires IsGroup(p) && AreGroups(ps, g)
    ensures AreGroups([p] + ps, [GroupValue(p)] + g)
    ensures WithColons([p] + ps) == if ps == [] then p else p + ":" + WithColons(ps)
  {
    hide AllHex, GroupValue;
    assert ([p] + ps)[1..] == ps;
  }

  /** Accepted groups are a first group, and accepted groups behind its colon if it has one. */
  lemma AcceptedOpen(s: string, room: nat)
    requires ParsedGroups(s, room).Some?
    ensures var k := IndexOf(s, ':');
            && room >= 1 && IsGroup(s[..k])
            && (k == |s| ==> ParsedGroups(s, room).value == [GroupValue(s[..k])])
            && (k < |s| ==> ParsedGroups(s[k + 1..], room - 1).Some?
                            && ParsedGroups(s, room).value == [GroupValue(s[..k])]
                               + ParsedGroups(s[k + 1..], room - 1).value)
  {
    hide AllHex, GroupValue, IndexOf;
  }

  lemma {:induction false} AcceptedGroups(s: string, room: nat) returns (ps: seq<string>)
    requires ParsedGroups(s, room).Some?
    ensures AreGroups(ps, ParsedGroups(s, room).value) && 1 <= |ps| <= room && s == WithColons(ps)
    decreases |s|
  {
    hide AllHex, GroupValue, AreGroups, WithColons, ParsedGroups, IndexOf;
    var k := IndexOf(s, ':');
    var p := s[..k];
    AcceptedOpen(s, room);
    NoGroups();
    if k == |s| {
      ps := [p] + [];
      OneMoreGroup(p, [], []);
      assert p == s && [GroupValue(p)] + [] == [GroupValue(p)];
    } else {
      var rest := AcceptedGroups(s[k + 1..], room - 1);
      ps := [p] + rest;
      OneMoreGroup(p, rest, ParsedGroups(s[k + 1..], room - 1).value);
      assert s == p + ":" + s[k + 1..];
    }
  }

  lemma NoGroups()
    ensures AreGroups([], [])
  {
  }

  /**
   * Text is accepted as groups if and only if it is one group or more, as many as there is room for,
   * of one to four hexadecimal digits each, joined by single colons; these are the groups.
   */
  lemma GroupsAcceptHex(s: string, room: nat, g: seq<u16>)
    ensures ParsedGroups(s, room) == Some(g) <==>
              exists ps :: AreGroups(ps, g) && 1 <= |ps| <= room && s == WithColons(ps)
  {
    hide ParsedGroups, AreGroups, WithColons;
    if ParsedGroups(s, room) == Some(g) {
      var ps := AcceptedGroups(s, room);
      assert AreGroups(ps, g);
    }
    if ps :| AreGroups(ps, g) && 1 <= |ps| <= room && s == WithColons(ps) {
      GroupsAreAccepted(ps, g, room);
    }
  }

  // ------------------------------------------------------------------
  // IPv6 hosts
  // ------------------------------------------------------------------

  /** One side of a double colon, or a host without one: nothing, or up to eight groups. */
  ghost predicate IsPart(s: string, g: seq<u16>) {
    (s == "" && g == []) || exists ps :: AreGroups(ps, g) && 1 <= |ps| <= 8 && s == WithColons(ps)
  }

  lemma PartsAreAccepted(s: string, g: seq<u16>)
    ensures GroupsOrNone(s) == Some(g) <==> IsPart(s, g)
  {
    hide ParsedGroups, AreGroups, WithColons;
    GroupsAcceptHex(s, 8, g);
    if s == "" {
      forall ps | AreGroups(ps, g) && 1 <= |ps| ensures WithColons(ps) != "" { ColonsAreText(ps, g); }
    }
  }

  lemma {:induction false} GroupsAreTight(ps: seq<string>, g: seq<u16>)
    requires AreGroups(ps, g) && ps != []
    ensures Tight(WithColons(ps))
  {
    hide Tight, AllHex, GroupValue;
    var p := ps[0];
    assert IsGroup(p);
    HexHasNoColon(p);
    if |ps| == 1 {
      NoColonIsTight(p);
    } else {
      GroupsAreTight(ps[1..], g[1..]);
      ColonsAreText(ps[1..], g[1..]);
      TightJoin(p, WithColons(ps[1..]));
    }
  }

  lemma NoColonIsTight(p: string)
    requires ':' !in p && ']' !in p
    ensures Tight(p)
  {
  }

  lemma PartIsTight(s: string, g: seq<u16>)
    requires IsPart(s, g)
    ensures Tight(s)
  {
    hide AreGroups, WithColons;
    if s != "" {
      var ps :| AreGroups(ps, g) && 1 <= |ps| <= 8 && s == WithColons(ps);
      GroupsAreTight(ps, g);
    }
  }

  /** A head and a tail of at most seven groups, with zeros for the double colon between them. */
  ghost predicate IsCompressed(host: string, front: string, back: string, head: seq<u16>, tail: seq<u16>, g: Groups) {
    && host == front + "::" + back
    && IsPart(front, head) && IsPart(back, tail)
    && |head| + |tail| <= 7
    && g == head + ZeroGroups(8 - |head| - |tail|) + tail
  }

  /** A bare IPv6 host. */
  ghost predicate IsHost(host: string, g: Groups) {
    IsPart(host, g) || exists front, back, head, tail :: IsCompressed(host, front, back, head, tail, g)
  }

  /**
   * A host is accepted as IPv6 if and only if it is eight groups joined by colons, or such a head and
   * tail around a double colon; these are the groups.
   */
  lemma V6AcceptsHosts(host: string, g: Groups)
    ensures ParsedV6(host) == Some(g) <==> IsHost(host, g)
  {
    hide GroupsOrNone, IsPart, DoubleColon, Tight, ZeroGroups;
    var k := DoubleColon(host);
    if ParsedV6(host) == Some(g) {
      if k == |host| {
        PartsAreAccepted(host, g);
      } else {
        var head, tail := GroupsOrNone(host[..k]).value, GroupsOrNone(host[k + 2..]).value;
        PartsAreAccepted(host[..k], head);
        PartsAreAccepted(host[k + 2..], tail);
        assert host == host[..k] + "::" + host[k + 2..];
        assert IsCompressed(host, host[..k], host[k + 2..], head, tail, g);
      }
    }
    if IsPart(host, g) {
      PartsAreAccepted(host, g);
      PartIsTight(host, g);
      NoDoubleColon(host);
    }
    if front, back, head, tail :| IsCompressed(host, front, back, head, tail, g) {
      CompressedIsAccepted(host, front, back, head, tail, g);
    }
  }

  lemma CompressedIsAccepted(host: string, front: string, back: string, head: seq<u16>, tail: seq<u16>, g: Groups)
    requires IsCompressed(host, front, back, head, tail, g)
    ensures ParsedV6(host) == Some(g)
  {
    hide GroupsOrNone, IsPart, DoubleColon, Tight, ZeroGroups, ParsedV6;
    PartsAreAccepted(front, head);
    PartsAreAccepted(back, tail);
    PartIsTight(front, head);
    DoubleColonAt(front, back);
    BothSidesParse(front, back, head, tail);
  }
}
