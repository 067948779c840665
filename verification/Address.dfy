/** IPv4 and IPv6 addresses and their text form. */
module Address {
  import opened Endian
  import opened Text

  type Groups = g: seq<u16> | |g| == 8
    witness [0, 0, 0, 0, 0, 0, 0, 0]

  /** An address; the sixteen octets of an IPv6 address are held as eight groups. */
  datatype IpAddress =
    | V4(a: byte, b: byte, c: byte, d: byte, port: u16)
    | V6(groups: Groups, port: u16, scope: u32)

  // ------------------------------------------------------------------
  // Printing
  // ------------------------------------------------------------------

  function Dec(n: nat): string {
    Number(n, 10)
  }

  function Hex(n: nat): string {
    Number(n, 16)
  }

  /** Groups in hexadecimal, one colon between neighbours. */
  function Join(g: seq<u16>): string {
    if g == [] then ""
    else if |g| == 1 then Hex(g[0])
    else Hex(g[0]) + ":" + Join(g[1..])
  }

  /** A stretch of zero groups. */
  predicate ZeroRun(g: Groups, start: nat, length: nat) {
    start + length <= 8 && forall i :: start <= i < start + length ==> g[i] == 0
  }

  /** The first of the longest stretches of zero groups that end by `k`. */
  ghost predicate FirstLongest(g: Groups, k: nat, start: nat, length: nat) {
    && start + length <= k <= 8
    && ZeroRun(g, start, length)
    && forall s, n :: 0 <= s && 0 < n && s + n <= k && ZeroRun(g, s, n) ==> n < length || (n == length && start <= s)
  }

  /** What section 4.2 of RFC 5952 lets the double colon stand for: that stretch, if longer than one. */
  ghost predicate Compressible(g: Groups, start: nat, length: nat) {
    || (length >= 2 && FirstLongest(g, 8, start, length))
    || (length == 0 && start == 8 && forall s :: 0 <= s < 7 ==> !(g[s] == 0 && g[s + 1] == 0))
  }

  function HostText(g: Groups, start: nat, length: nat): string
    requires start + length <= 8
  {
    if length == 0 then Join(g) else Join(g[..start]) + "::" + Join(g[start + length..])
  }

  lemma {:induction false} JoinAppend(g: seq<u16>, x: u16)
    ensures Join(g + [x]) == if g == [] then Hex(x) else Join(g) + ":" + Hex(x)
  {
    hide Number;
    if g == [] {
    } else {
      assert (g + [x])[1..] == g[1..] + [x];
      JoinAppend(g[1..], x);
    }
  }

  lemma PairIsRun(g: Groups, s: nat)
    requires s < 7
    ensures ZeroRun(g, s, 2) <==> g[s] == 0 && g[s + 1] == 0
  {
  }

  /** The zero-run scan of to_text. */
  method LongestZeros(g: Groups) returns (start: nat, length: nat)
    ensures Compressible(g, start, length)
  {
    start, length := 0, 0;
    var runStart := 0;
    while runStart < 8
      invariant 0 <= runStart <= 8
      invariant FirstLongest(g, runStart, start, length)
      invariant 0 < runStart < 8 ==> g[runStart - 1] != 0 || g[runStart] != 0
    {
      if g[runStart] != 0 {
        runStart := runStart + 1;
        continue;
      }
      var runLength := 0;
      while runStart + runLength < 8 && g[runStart + runLength] == 0
        invariant runStart + runLength <= 8
        invariant ZeroRun(g, runStart, runLength)
      {
        runLength := runLength + 1;
      }
      RunsEndHere(g, runStart, runLength, start, length);
      if runLength > length {
        start, length := runStart, runLength;
      }
      runStart := runStart + runLength;
    }
    if length < 2 {
      forall s | 0 <= s < 7
        ensures !(g[s] == 0 && g[s + 1] == 0)
      {
        PairIsRun(g, s);
      }
      start, length := 8, 0;
    }
  }

  /** Every zero run ending by the end of a maximal one lies before it or inside it. */
  lemma RunsEndHere(g: Groups, at: nat, n: nat, start: nat, length: nat)
    requires at + n <= 8 && n > 0 && ZeroRun(g, at, n)
    requires FirstLongest(g, at, start, length)
    requires at > 0 ==> g[at - 1] != 0
    ensures n > length ==> FirstLongest(g, at + n, at, n)
    ensures n <= length ==> FirstLongest(g, at + n, start, length)
  {
    forall s, m | 0 <= s && 0 < m && s + m <= at + n && ZeroRun(g, s, m)
      ensures (s + m <= at && (m < length || (m == length && start <= s))) || (s >= at && m <= n)
    {
    }
  }

  /** The host text once `i` groups are dealt with. */
  function HostFront(g: Groups, start: nat, length: nat, i: nat): string
    requires start + length <= 8 && i <= 8
    requires length == 0 || i <= start || i >= start + length
  {
    if length == 0 || i <= start then Join(g[..i]) else Join(g[..start]) + "::" + Join(g[start + length..i])
  }

  lemma HostFrontStep(g: Groups, start: nat, length: nat, i: nat)
    requires start + length <= 8 && i < 8
    requires length == 0 || i < start || i >= start + length
    ensures HostFront(g, start, length, i + 1) ==
            HostFront(g, start, length, i)
            + (if i != 0 && (length == 0 || i != start + length) then ":" else "") + Hex(g[i])
  {
    hide Join, Number;
    if length == 0 || i < start {
      assert g[..i + 1] == g[..i] + [g[i]];
      JoinAppend(g[..i], g[i]);
      JoinNothing();
    } else {
      var j := start + length;
      assert g[j..i + 1] == g[j..i] + [g[i]];
      JoinAppend(g[j..i], g[i]);
      JoinNothing();
    }
  }

  lemma JoinNothing()
    ensures Join([]) == ""
  {
  }

  /** The one text of a host: its groups with the first longest run of zeros collapsed. */
  ghost predicate IsHostOf(text: string, g: Groups) {
    exists start: nat, length: nat ::
        start + length <= 8 && Compressible(g, start, length) && text == HostText(g, start, length)
  }

  lemma HostFrontEnds(g: Groups, start: nat, length: nat)
    requires start + length <= 8 && (length == 0 ==> start == 8)
    ensures HostFront(g, start, length, 0) == ""
    ensures start < 8 ==> HostFront(g, start, length, start + length) == HostFront(g, start, length, start) + "::"
    ensures HostFront(g, start, length, 8) == HostText(g, start, length)
  {
    hide Join;
    JoinNothing();
    assert g[..8] == g && g[start + length..8] == g[start + length..];
    assert g[start + length..start + length] == [];
    assert g[..0] == [];
  }

  /** The stretch is inside the groups, and there is none exactly when it starts behind them. */
  lemma CompressibleRange(g: Groups, start: nat, length: nat)
    requires Compressible(g, start, length)
    ensures start + length <= 8 && (length == 0 <==> start == 8)
  {
  }

  method PrintHost(g: Groups) returns (text: string)
    ensures IsHostOf(text, g)
  {
    hide Number, Join, HostFront, HostText, Compressible;
    var start, length := LongestZeros(g);
    CompressibleRange(g, start, length);
    HostFrontEnds(g, start, length);
    text := "";
    var i := 0;
    while i < 8
      invariant 0 <= i <= 8
      invariant length == 0 || i <= start || i >= start + length
      invariant text == HostFront(g, start, length, i)
    {
      if i == start {
        text := text + "::";
        i := i + length;
        continue;
      }
      HostFrontStep(g, start, length, i);
      if i != 0 && i != start + length {
        text := text + ":";
      }
      text := text + Hex(g[i]);
      i := i + 1;
    }
  }

  /** The text of an address under a given choice of compressed stretch. */
  function AddressText(a: IpAddress, start: nat, length: nat): string
    requires start + length <= 8
  {
    match a
    case V4(a, b, c, d, port) =>
      Dec(a) + "." + Dec(b) + "." + Dec(c) + "." + Dec(d) + ":" + Dec(port)
    case V6(groups, port, _) =>
      "[" + HostText(groups, start, length) + "]:" + Dec(port)
  }

  /** The one text of an address. */
  ghost predicate IsTextOf(text: string, a: IpAddress) {
    exists start: nat, length: nat ::
      && start + length <= 8
      && (a.V6? ==> Compressible(a.groups, start, length))
      && text == AddressText(a, start, length)
  }

  method ToText(a: IpAddress) returns (text: string)
    ensures IsTextOf(text, a)
  {
    hide Number, HostText;
    match a {
      case V4(a', b, c, d, port) =>
        text := Dec(a') + "." + Dec(b) + "." + Dec(c) + "." + Dec(d) + ":" + Dec(port);
        assert text == AddressText(a, 8, 0);
      case V6(groups, port, _) =>
        var host := PrintHost(groups);
        ghost var start: nat, length: nat :|
          start + length <= 8 && Compressible(groups, start, length) && host == HostText(groups, start, length);
        text := "[" + host + "]:" + Dec(port);
        assert text == AddressText(a, start, length);
    }
  }

  /** Which stretch is compressed is settled by the groups. */
  lemma CompressionIsUnique(g: Groups, s1: nat, n1: nat, s2: nat, n2: nat)
    requires Compressible(g, s1, n1) && Compressible(g, s2, n2)
    ensures s1 == s2 && n1 == n2
  {
    if n1 >= 2 {
      assert g[s1] == 0 && g[s1 + 1] == 0;
    }
    if n2 >= 2 {
      assert g[s2] == 0 && g[s2 + 1] == 0;
    }
  }

  // ------------------------------------------------------------------
  // Parsing: ports and IPv4 hosts
  // ------------------------------------------------------------------

  function ParsedPort(s: string): Option<u16> {
    if s == "" || |s| > 5 || !AllDecimal(s) then None
    else
      var v := ValueFrom(0, s, 10);
      if v > 65535 then None else Some(v)
  }

  /** The IPv4 scan: octets finished, the number being read, and whether it has a digit yet. */
  datatype Scan = Scan(octets: seq<byte>, value: byte, inNumber: bool)

  function Scanned(st: Scan, c: char): Option<Scan> {
    if c == '.' then
      if !st.inNumber || |st.octets| >= 3 then None
      else Some(Scan(st.octets + [st.value], 0, false))
    else if IsDecimal(c) then
      var v := st.value as int * 10 + HexValue(c);
      if v > 255 then None else Some(Scan(st.octets, v, true))
    else None
  }

  function ScannedAll(st: Scan, s: string): Option<Scan>
    decreases |s|
  {
    if s == "" then Some(st)
    else
      match Scanned(st, s[0])
      case None => None
      case Some(st') => ScannedAll(st', s[1..])
  }

  function ParsedV4(host: string): (r: Option<seq<byte>>)
    ensures r.Some? ==> |r.value| == 4
  {
    match ScannedAll(Scan([], 0, false), host)
    case None => None
    case Some(st) => if !st.inNumber || |st.octets| != 3 then None else Some(st.octets + [st.value])
  }

  method ParseV4(host: string) returns (r: Option<seq<byte>>)
    ensures r == ParsedV4(host)
  {
    var st := Scan([], 0, false);
    for i := 0 to |host|
      invariant ScannedAll(st, host[i..]) == ScannedAll(Scan([], 0, false), host)
    {
      assert host[i..][1..] == host[i + 1..];
      var c := host[i];
      if c == '.' {
        if !st.inNumber || |st.octets| >= 3 {
          return None;
        }
        st := Scan(st.octets + [st.value], 0, false);
      } else if '0' <= c <= '9' {
        var v := st.value as int * 10 + (c as int - '0' as int);
        if v > 255 {
          return None;
        }
        st := Scan(st.octets, v, true);
      } else {
        return None;
      }
    }
    if !st.inNumber || |st.octets| != 3 {
      return None;
    }
    r := Some(st.octets + [st.value]);
  }

  // ------------------------------------------------------------------
  // Parsing: IPv6 hosts
  // ------------------------------------------------------------------

  /** Colon-separated groups of one to four hexadecimal digits, at most `room` of them. */
  function ParsedGroups(s: string, room: nat): (r: Option<seq<u16>>)
    ensures r.Some? ==> |r.value| <= room
    decreases |s|
  {
    var k := IndexOf(s, ':');
    if k == 0 || k > 4 || room == 0 || !AllHex(s[..k]) then None
    else
      var v := GroupValue(s[..k]);
      if k == |s| then Some([v])
      else if k + 1 == |s| then None
      else
        match ParsedGroups(s[k + 1..], room - 1)
        case None => None
        case Some(rest) => Some([v] + rest)
  }

  function Sixteens(n: nat): nat {
    if n == 0 then 1 else 16 * Sixteens(n - 1)
  }

  lemma {:induction false} HexBound(s: string)
    requires AllHex(s)
    ensures ValueFrom(0, s, 16) < Sixteens(|s|)
  {
    if s == "" {
    } else {
      HexBound(s[..|s| - 1]);
      assert IsHex(s[|s| - 1]);
    }
  }

  lemma FourDigits(s: string)
    requires |s| <= 4 && AllHex(s)
    ensures ValueFrom(0, s, 16) < 0x1_0000
  {
    hide ValueFrom;
    HexBound(s);
    assert Sixteens(2) == 256;
  }

  function GroupValue(s: string): u16
    requires |s| <= 4 && AllHex(s)
  {
    FourDigits(s);
    ValueFrom(0, s, 16)
  }

  function GroupsOrNone(s: string): Option<seq<u16>> {
    if s == "" then Some([]) else ParsedGroups(s, 8)
  }

  function ZeroGroups(n: nat): (g: seq<u16>)
    ensures |g| == n
  {
    seq(n, _ => 0)
  }

  /** A bare IPv6 host, its double colon standing for at least one zero group. */
  function ParsedV6(host: string): Option<Groups> {
    var k := DoubleColon(host);
    if k == |host| then
      match GroupsOrNone(host)
      case None => None
      case Some(g) => if |g| != 8 then None else Some(g)
    else
      match (GroupsOrNone(host[..k]), GroupsOrNone(host[k + 2..]))
      case (Some(head), Some(tail)) =>
        if |head| + |tail| > 7 then None
        else Some(head + ZeroGroups(8 - |head| - |tail|) + tail)
      case _ => None
  }

  function Behind(g: seq<u16>, r: Option<seq<u16>>): Option<seq<u16>> {
    match r
    case None => None
    case Some(rest) => Some(g + rest)
  }

  method ParseGroup(group: string) returns (r: Option<u16>)
    requires 1 <= |group| <= 4
    ensures r == if AllHex(group) then Some(GroupValue(group)) else None
  {
    var value: u16 := 0;
    for i := 0 to |group|
      invariant AllHex(group[..i])
      invariant value == ValueFrom(0, group[..i], 16)
    {
      var nibble := HexValue(group[i]);
      if nibble < 0 {
        assert !IsHex(group[i]);
        return None;
      }
      assert group[..i + 1][..i] == group[..i];
      FourDigits(group[..i + 1]);
      value := (value as int * 16 + nibble) % 0x1_0000;
    }
    assert group[..|group|] == group;
    r := Some(value);
  }

  method ParseGroups(part: string) returns (r: Option<seq<u16>>)
    ensures r == GroupsOrNone(part)
  {
    hide ParsedGroups, AllHex, GroupValue, IndexOf, Behind;
    if part == "" {
      return Some([]);
    }
    var groups: seq<u16> := [];
    var start := 0;
    assert part[0..] == part;
    BehindNothing(ParsedGroups(part, 8));
    while true
      invariant start < |part| && |groups| <= 8
      invariant ParsedGroups(part, 8) == Behind(groups, ParsedGroups(part[start..], 8 - |groups|))
      decreases |part| - start
    {
      var rest := part[start..];
      var k := IndexOf(rest, ':');
      var group := rest[..k];
      GroupsStep(groups, rest, 8 - |groups|);
      if |group| == 0 || |group| > 4 {
        return None;
      }
      if |groups| >= 8 {
        return None;
      }
      var value := ParseGroup(group);
      if value.None? {
        return None;
      }
      groups := groups + [value.value];
      if k == |rest| {
        return Some(groups);
      }
      start := start + k + 1;
      if start >= |part| {
        return None;
      }
      assert rest[k + 1..] == part[start..];
    }
  }

  /** What the first group of some text settles, for text parsed behind other groups. */
  lemma GroupsStep(g: seq<u16>, s: string, room: nat)
    ensures var k := IndexOf(s, ':');
            var r := Behind(g, ParsedGroups(s, room));
            if k == 0 || k > 4 || room == 0 || !AllHex(s[..k]) then r == None
            else
              var v := GroupValue(s[..k]);
              if k == |s| then r == Some(g + [v])
              else if k + 1 == |s| then r == None
              else r == Behind(g + [v], ParsedGroups(s[k + 1..], room - 1))
  {
    hide AllHex, GroupValue, IndexOf;
    var k := IndexOf(s, ':');
    if !(k == 0 || k > 4 || room == 0 || !AllHex(s[..k])) && k + 1 < |s| {
      BehindOne(g, GroupValue(s[..k]), ParsedGroups(s[k + 1..], room - 1));
    }
  }

  lemma BehindNothing(r: Option<seq<u16>>)
    ensures Behind([], r) == r
  {
    if r.Some? {
      assert [] + r.value == r.value;
    }
  }

  lemma BehindOne(g: seq<u16>, v: u16, r: Option<seq<u16>>)
    ensures Behind(g, Behind([v], r)) == Behind(g + [v], r)
  {
    if r.Some? {
      assert g + ([v] + r.value) == g + [v] + r.value;
    }
  }

  method ParseV6(host: string) returns (r: Option<Groups>)
    ensures r == ParsedV6(host)
  {
    hide ParsedGroups;
    var k := DoubleColon(host);
    if k == |host| {
      var all := ParseGroups(host);
      if all.None? || |all.value| != 8 {
        return None;
      }
      return Some(all.value);
    }
    var head := ParseGroups(host[..k]);
    if head.None? {
      return None;
    }
    var tail := ParseGroups(host[k + 2..]);
    if tail.None? || |head.value| + |tail.value| > 7 {
      return None;
    }
    ghost var zeros := 8 - |head.value| - |tail.value|;
    var groups: seq<u16> := head.value;
    for i := 0 to 8 - |head.value| - |tail.value|
      invariant groups == head.value + ZeroGroups(i)
    {
      groups := groups + [0];
    }
    for i := 0 to |tail.value|
      invariant groups == head.value + ZeroGroups(zeros) + tail.value[..i]
    {
      groups := groups + [tail.value[i]];
    }
    assert tail.value[..|tail.value|] == tail.value;
    r := Some(groups);
  }

  // ------------------------------------------------------------------
  // Parsing: whole addresses
  // ------------------------------------------------------------------

  function ParsedBracketed(text: string): Option<IpAddress>
    requires text != ""
  {
    var close := IndexOf(text, ']');
    if close == |text| || close == 0 then None
    else
      var rest := text[close + 1..];
      var port := if rest == "" then Some(0) else if rest[0] != ':' then None else ParsedPort(rest[1..]);
      match (port, ParsedV6(text[1..close]))
      case (Some(p), Some(g)) => Some(V6(g, p, 0))
      case _ => None
  }

  /** Where a port suffix begins: at the only colon, when digits follow it. */
  predicate HasPort(text: string) {
    var colon := LastIndexOf(text, ':');
    && colon.Some?
    && colon.value + 1 < |text|
    && AllDecimal(text[colon.value + 1..])
    && IndexOf(text, ':') == colon.value
  }

  function ParsedHost(host: string, port: u16): Option<IpAddress> {
    if '.' in host then
      match ParsedV4(host)
      case None => None
      case Some(o) => Some(V4(o[0], o[1], o[2], o[3], port))
    else
      match ParsedV6(host)
      case None => None
      case Some(g) => Some(V6(g, port, 0))
  }

  function Parsed(text: string): Option<IpAddress> {
    if text != "" && text[0] == '[' then ParsedBracketed(text)
    else if HasPort(text) then
      var colon := LastIndexOf(text, ':').value;
      match ParsedPort(text[colon + 1..])
      case None => None
      case Some(port) => ParsedHost(text[..colon], port)
    else ParsedHost(text, 0)
  }

  method FromBracketed(text: string) returns (r: Option<IpAddress>)
    requires text != "" && text[0] == '['
    ensures r == ParsedBracketed(text)
  {
    hide ParsedV6, ParsedPort;
    var close := IndexOf(text, ']');
    if close == |text| {
      return None;
    }
    var remainder := text[close + 1..];
    var port := Some(0);
    if remainder != "" {
      if remainder[0] != ':' {
        return None;
      }
      port := ParsedPort(remainder[1..]);
      if port.None? {
        return None;
      }
    }
    var groups := ParseV6(text[1..close]);
    if groups.None? {
      return None;
    }
    r := Some(V6(groups.value, port.value, 0));
  }

  method FromHost(host: string, port: u16) returns (r: Option<IpAddress>)
    ensures r == ParsedHost(host, port)
  {
    hide ParsedV4, ParsedV6;
    if '.' in host {
      var octets := ParseV4(host);
      if octets.None? {
        return None;
      }
      return Some(V4(octets.value[0], octets.value[1], octets.value[2], octets.value[3], port));
    }
    var groups := ParseV6(host);
    if groups.None? {
      return None;
    }
    r := Some(V6(groups.value, port, 0));
  }
}
