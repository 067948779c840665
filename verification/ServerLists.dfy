/** Tracker server lists: a total, and the servers of one message inside a block of stated size. */
module ServerLists {
  import opened Endian
  import opened Codec
  import opened Layouts

  type Octets = b: Bytes | |b| == 4 witness Zeros(4)

  datatype Server = Server(address: Octets, port: u16, users: u16, flags: u16, name: Bytes, description: Bytes)

  datatype ServerList = ServerList(total: u16, servers: seq<Server>)

  /** A length byte and the text. */
  const TEXT := Blob(U8)

  lemma TextLawful()
    ensures Lawful(TEXT) && Exact(TEXT)
    ensures forall t :: TEXT.fits(t) <==> |t| <= 255
  {
    hide Lawful, Exact;
    U8Lawful();
    BlobLawful(U8);
  }

  lemma TextOpens(t: Bytes, s: Bytes)
    ensures |t| <= 255 ==> TEXT.write(t) == [|t|] + t
    ensures |s| < 1 ==> TEXT.read(s) == Err(Truncated)
    ensures |s| >= 1 ==>
              TEXT.read(s) == if |s[1..]| < s[0] then Err(Truncated) else Ok((s[1..][..s[0]], s[1..][s[0]..]))
  {
    hide Blob;
    BlobOpens(U8, t, s);
  }

  function Numbers(): Codec<(nat, (nat, nat))> {
    Pair(U16, Pair(U16, U16))
  }

  function ServerShape(): Codec<(Bytes, ((nat, (nat, nat)), (Bytes, Bytes)))> {
    Pair(Raw(4), Pair(Numbers(), Pair(TEXT, TEXT)))
  }

  function ToServer(p: (Bytes, ((nat, (nat, nat)), (Bytes, Bytes)))): Server {
    var (address, ((port, (users, flags)), (name, description))) := p;
    Server(if |address| == 4 then address else Zeros(4), Clip16(port), Clip16(users), Clip16(flags), name, description)
  }

  function FromServer(s: Server): (Bytes, ((nat, (nat, nat)), (Bytes, Bytes))) {
    (s.address, ((s.port, (s.users, s.flags)), (s.name, s.description)))
  }

  /** Four address octets, port, users, flags, and two texts. */
  function OneServer(): Codec<Server> {
    Mapped(ServerShape(), p => ToServer(p), s => FromServer(s))
  }

  predicate ShortTexts(servers: seq<Server>) {
    forall i :: 0 <= i < |servers| ==> |servers[i].name| <= 255 && |servers[i].description| <= 255
  }

  lemma NumbersLawful()
    ensures Lawful(Numbers()) && Exact(Numbers())
    ensures forall n :: Numbers().fits(n) <==> n.0 < 0x1_0000 && n.1.0 < 0x1_0000 && n.1.1 < 0x1_0000
  {
    hide Lawful, Exact;
    U16Lawful();
    PairLawful(U16, U16);
    PairLawful(U16, Pair(U16, U16));
  }

  lemma ServerShapeLawful()
    ensures Lawful(ServerShape()) && Exact(ServerShape())
  {
    hide Lawful, Exact, Numbers, TEXT;
    NumbersLawful();
    TextLawful();
    RawLawful(4);
    PairLawful(TEXT, TEXT);
    PairLawful(Numbers(), Pair(TEXT, TEXT));
    PairLawful(Raw(4), Pair(Numbers(), Pair(TEXT, TEXT)));
  }

  lemma ServerShapeFits(p: (Bytes, ((nat, (nat, nat)), (Bytes, Bytes))))
    ensures ServerShape().fits(p) <==>
            |p.0| == 4 && p.1.0.0 < 0x1_0000 && p.1.0.1.0 < 0x1_0000 && p.1.0.1.1 < 0x1_0000
            && |p.1.1.0| <= 255 && |p.1.1.1| <= 255
  {
    hide Numbers, TEXT, Lawful, Exact;
    NumbersLawful();
    TextLawful();
  }

  lemma OneServerLawful()
    ensures Lawful(OneServer()) && Exact(OneServer())
    ensures forall s :: OneServer().fits(s) <==> |s.name| <= 255 && |s.description| <= 255
  {
    hide Lawful, Exact, ServerShape;
    ServerShapeLawful();
    forall p | ServerShape().fits(p) ensures FromServer(ToServer(p)) == p { ServerShapeFits(p); }
    forall s ensures OneServer().fits(s) <==> |s.name| <= 255 && |s.description| <= 255 {
      ServerShapeFits(FromServer(s));
    }
    MappedLawful(ServerShape(), p => ToServer(p), s => FromServer(s));
  }

  const LIST_SIZE := Where(U16, (n: nat) => n >= 4, Truncated)

  const LIST_TYPE: Bytes := [0, 1]

  function Body(): Codec<ServerList> {
    Mapped(Pair(U16, Counted(U16, OneServer())),
           (p: (nat, seq<Server>)) => ServerList(Clip16(p.0), p.1),
           (l: ServerList) => (l.total, l.servers))
  }

  lemma BodyLawful()
    ensures Lawful(Body()) && Exact(Body()) && Lawful(LIST_SIZE) && Exact(LIST_SIZE)
    ensures forall l :: Body().fits(l) <==> |l.servers| <= MAX_COUNT && ShortTexts(l.servers)
  {
    hide Lawful, Exact, OneServer;
    U16Lawful();
    WhereLawful(U16, (n: nat) => n >= 4, Truncated);
    OneServerLawful();
    CountedLawful(U16, OneServer());
    var c := Pair(U16, Counted(U16, OneServer()));
    PairLawful(U16, Counted(U16, OneServer()));
    var to, from := (p: (nat, seq<Server>)) => ServerList(Clip16(p.0), p.1),
                    (l: ServerList) => (l.total as nat, l.servers);
    assert Inverse(c, to, from);
    MappedLawful(c, to, from);
  }

  function Encoding(list: ServerList): Encoded {
    if |list.servers| > MAX_COUNT then Refused(CountTooLarge)
    else if !ShortTexts(list.servers) then Refused(StringTooLong)
    else if |Body().write(list)| > MAX_SIZE then Refused(ElementTooLarge)
    else Fine(FramedWrite(LIST_TYPE, LIST_SIZE, Body(), list))
  }

  function Decoding(bytes: Bytes): Result<ServerList> {
    Framed(LIST_TYPE, LIST_SIZE, Body(), 4, bytes)
  }

  // ------------------------------------------------------------------
  // The code
  // ------------------------------------------------------------------

  function ServerBytes(s: Server): Bytes
    requires |s.name| <= 255 && |s.description| <= 255
  {
    s.address + WriteU16be(s.port) + WriteU16be(s.users) + WriteU16be(s.flags)
    + ([|s.name|] + s.name) + ([|s.description|] + s.description)
  }

  lemma NumbersWrite(a: u16, b: u16, c: u16)
    ensures Numbers().write((a, (b, c))) == WriteU16be(a) + WriteU16be(b) + WriteU16be(c)
  {
    hide WriteU16be;
  }

  lemma ServerWrites(s: Server)
    requires |s.name| <= 255 && |s.description| <= 255
    ensures OneServer().write(s) == ServerBytes(s)
  {
    hide WriteU16be, TEXT, Numbers;
    NumbersWrite(s.port, s.users, s.flags);
    TextOpens(s.name, []);
    TextOpens(s.description, []);
  }

  lemma NumbersRead(s: Bytes)
    ensures |s| < 6 ==> Numbers().read(s) == Err(Truncated)
    ensures |s| >= 6 ==> Numbers().read(s) == Ok(((ReadU16be(s), (ReadU16be(s[2..]), ReadU16be(s[4..]))), s[6..]))
  {
    hide ReadU16be;
    if |s| >= 4 {
      assert s[2..][2..] == s[4..];
      if |s| >= 6 {
        assert s[4..][2..] == s[6..];
      }
    }
  }

  /** A server, once its fixed part is read. */
  function ServerRead(address: Octets, numbers: (nat, (nat, nat)),
                      texts: Result<((Bytes, Bytes), Bytes)>): Result<(Server, Bytes)> {
    if texts.Err? then Err(texts.error)
    else
      var ((name, description), rest) := texts.value;
      Ok((Server(address, Clip16(numbers.0), Clip16(numbers.1.0), Clip16(numbers.1.1), name, description), rest))
  }

  lemma ServerReads(s: Bytes)
    ensures |s| < 10 ==> OneServer().read(s) == Err(Truncated)
    ensures |s| >= 10 ==>
              OneServer().read(s) ==
              ServerRead(s[..4], (ReadU16be(s[4..]), (ReadU16be(s[6..]), ReadU16be(s[8..]))),
                         Pair(TEXT, TEXT).read(s[10..]))
  {
    hide ReadU16be, TEXT, Numbers;
    if |s| >= 4 {
      NumbersRead(s[4..]);
      if |s| >= 10 {
        assert s[4..][2..] == s[6..] && s[4..][4..] == s[8..] && s[4..][6..] == s[10..];
      }
    }
  }

  /** Two texts take a length byte each. */
  lemma TextsNeedRoom(s: Bytes)
    ensures |s| < 2 ==> Pair(TEXT, TEXT).read(s) == Err(Truncated)
  {
    hide TEXT;
    TextOpens([], s);
    if |s| == 1 && s[0] == 0 {
      TextOpens([], s[1..][0..]);
    }
  }

  /** The text at the front, and how many bytes it takes. */
  method TakeText(bytes: Bytes) returns (r: Result<Bytes>, consumed: nat)
    ensures r.Err? ==> TEXT.read(bytes) == Err(r.error)
    ensures r.Ok? ==> consumed <= |bytes| && TEXT.read(bytes) == Ok((r.value, bytes[consumed..]))
  {
    hide TEXT;
    TextOpens([], bytes);
    consumed := 0;
    if bytes == [] {
      return Err(Truncated), 0;
    }
    var length: int := bytes[0];
    if |bytes| < length + 1 {
      return Err(Truncated), 0;
    }
    consumed := length + 1;
    r := Ok(bytes[1..length + 1]);
    assert bytes[1..][..length] == bytes[1..length + 1] && bytes[1..][length..] == bytes[length + 1..];
  }

  method TakeServer(bytes: Bytes) returns (r: Result<Server>, consumed: nat)
    ensures r.Err? ==> OneServer().read(bytes) == Err(r.error)
    ensures r.Ok? ==> consumed <= |bytes| && OneServer().read(bytes) == Ok((r.value, bytes[consumed..]))
  {
    hide OneServer, ReadU16be, TEXT;
    consumed := 0;
    ServerReads(bytes);
    if |bytes| < 12 {
      if |bytes| >= 10 {
        TextsNeedRoom(bytes[10..]);
      }
      return Err(Truncated), 0;
    }
    var name, nameConsumed := TakeText(bytes[10..]);
    if name.Err? {
      return Err(name.error), 0;
    }
    assert bytes[10..][nameConsumed..] == bytes[10 + nameConsumed..];
    var description, descriptionConsumed := TakeText(bytes[10 + nameConsumed..]);
    if description.Err? {
      return Err(description.error), 0;
    }
    consumed := 10 + nameConsumed + descriptionConsumed;
    assert bytes[10 + nameConsumed..][descriptionConsumed..] == bytes[consumed..];
    r := Ok(Server(bytes[..4], ReadU16be(bytes[4..]), ReadU16be(bytes[6..]), ReadU16be(bytes[8..]), name.value,
                   description.value));
  }

  lemma BodyWrites(l: ServerList)
    ensures Body().write(l) == WriteU16be(l.total) + WriteU16be(|l.servers| % 0x1_0000)
            + WriteMany(OneServer(), l.servers)
  {
    hide WriteU16be, OneServer, Counted;
    CountedOpens(U16, OneServer(), l.servers, []);
  }

  lemma BodyReads(block: Bytes)
    requires |block| >= 4
    ensures var r := Ended(ReadMany(OneServer(), ReadU16be(block[2..]), block[4..]));
            Whole(Body(), 0, block) == if r.Err? then Err(r.error) else Ok(ServerList(ReadU16be(block), r.value))
  {
    hide ReadU16be, OneServer, Counted;
    CountedOpens(U16, OneServer(), [], block[2..]);
    assert block[2..][2..] == block[4..];
  }

  method Encode(list: ServerList) returns (r: Encoded)
    ensures r == Encoding(list)
    ensures |list.servers| > 65535 ==> r == Refused(CountTooLarge)
    ensures |list.servers| <= 65535 && (exists s :: s in list.servers && (|s.name| > 255 || |s.description| > 255)) ==>
              r == Refused(StringTooLong)
  {
    hide OneServer, Body, WriteU16be, ServerBytes;
    if |list.servers| > MAX_COUNT {
      return Refused(CountTooLarge);
    }
    var entries: Bytes := [];
    var i := 0;
    while i < |list.servers|
      invariant 0 <= i <= |list.servers|
      invariant forall k :: 0 <= k < i ==> |list.servers[k].name| <= 255 && |list.servers[k].description| <= 255
      invariant entries == WriteMany(OneServer(), list.servers[..i])
    {
      var entry := list.servers[i];
      if |entry.name| > 255 || |entry.description| > 255 {
        return Refused(StringTooLong);
      }
      entries := entries + ServerBytes(entry);
      ServerWrites(entry);
      WriteManyAppend(OneServer(), list.servers[..i], entry);
      assert list.servers[..i + 1] == list.servers[..i] + [entry];
      i := i + 1;
    }
    assert list.servers[..i] == list.servers;
    var size := 4 + |entries|;
    BodyWrites(list);
    if size > MAX_SIZE {
      return Refused(ElementTooLarge);
    }
    var out := LIST_TYPE + WriteU16be(size) + WriteU16be(list.total) + WriteU16be(|list.servers|) + entries;
    assert out == LIST_TYPE + (WriteU16be(size) + Body().write(list));
    r := Fine(out);
  }

  method DecodeServers(count: nat, bytes: Bytes) returns (r: Result<seq<Server>>)
    ensures r == Ended(ReadMany(OneServer(), count, bytes))
  {
    hide OneServer;
    var entries := bytes;
    var servers: seq<Server> := [];
    var i := 0;
    ExtendNothing(ReadMany(OneServer(), count, bytes));
    while i < count
      invariant 0 <= i <= count
      invariant ReadMany(OneServer(), count, bytes) == Extend(servers, ReadMany(OneServer(), count - i, entries))
    {
      ReadManyStep(OneServer(), count - i, servers, entries);
      var entry, consumed := TakeServer(entries);
      if entry.Err? {
        return Err(entry.error);
      }
      entries := entries[consumed..];
      servers := servers + [entry.value];
      i := i + 1;
    }
    ReadManyDone(OneServer(), servers, entries);
    if entries != [] {
      return Err(TrailingBytes);
    }
    r := Ok(servers);
  }

  method Decode(bytes: Bytes) returns (r: Result<ServerList>)
    ensures r == Decoding(bytes)
    ensures |bytes| >= 4 && bytes[..2] != [0x00, 0x01] ==> r == Err(WrongFormatTag)
  {
    hide OneServer, Body, ReadU16be, Framed;
    FramedOpens(LIST_TYPE, LIST_SIZE, Body(), 4, bytes);
    if |bytes| < 4 {
      return Err(Truncated);
    }
    if bytes[..2] != LIST_TYPE {
      return Err(WrongFormatTag);
    }
    var size: int := ReadU16be(bytes[2..]);
    assert bytes[2..][2..] == bytes[4..];
    if size < 4 {
      return Err(Truncated);
    }
    if |bytes| < 4 + size {
      return Err(Truncated);
    }
    if |bytes| > 4 + size {
      return Err(TrailingBytes);
    }
    BodyReads(bytes[4..]);
    assert bytes[4..][2..] == bytes[6..] && bytes[4..][4..] == bytes[8..];
    var servers := DecodeServers(ReadU16be(bytes[6..]), bytes[8..]);
    if servers.Err? {
      return Err(servers.error);
    }
    r := Ok(ServerList(ReadU16be(bytes[4..]), servers.value));
  }

  // ------------------------------------------------------------------
  // The codec is a bijection
  // ------------------------------------------------------------------

  /** What is encoded decodes to itself; cut anywhere it is truncated, and nothing may follow it. */
  lemma DecodeUndoesEncode(list: ServerList, n: nat, more: Bytes)
    requires Encoding(list).Fine?
    ensures var b := Encoding(list).bytes;
            && Decoding(b) == Ok(list)
            && (n < |b| ==> Decoding(b[..n]) == Err(Truncated))
            && (more != [] ==> Decoding(b + more) == Err(TrailingBytes))
  {
    hide Lawful, Exact, Writes, Body, Framed;
    BodyLawful();
    BodyWrites(list);
    BoxedLawful(LIST_SIZE, Body());
    var s := Boxed(LIST_SIZE, Body()).write(list);
    WritesItself(Boxed(LIST_SIZE, Body()), list);
    FramedLaws(LIST_TYPE, LIST_SIZE, Body(), 4, list, s, n, more);
  }

  /** What is decoded encodes to exactly the bytes it came from. */
  lemma EncodeUndoesDecode(b: Bytes)
    requires Decoding(b).Ok?
    ensures Encoding(Decoding(b).value) == Fine(b)
  {
    hide Lawful, Exact, Writes, Body, Framed;
    BodyLawful();
    FramedReadsOnlyWritten(LIST_TYPE, LIST_SIZE, Body(), 4, b);
  }

  /** One entry written out: address, port, users, flags, and two texts behind their lengths. */
  lemma ServerIs(s: Server)
    requires |s.name| <= 255 && |s.description| <= 255
    ensures OneServer().write(s) ==
            s.address + WriteU16be(s.port) + WriteU16be(s.users) + WriteU16be(s.flags)
            + [|s.name|] + s.name + [|s.description|] + s.description
  {
    hide OneServer, WriteU16be;
    ServerWrites(s);
  }

  /** The encoding written out: 00 01, the size of what follows, the total, the count, the entries. */
  lemma EncodingIs(list: ServerList)
    requires Encoding(list).Fine?
    ensures var entries := WriteMany(OneServer(), list.servers);
            && 4 + |entries| <= 0xFFFF && |list.servers| <= 0xFFFF
            && Encoding(list).bytes ==
               [0x00, 0x01] + WriteU16be(4 + |entries|) + WriteU16be(list.total) + WriteU16be(|list.servers|) + entries
  {
    hide OneServer, Body, WriteU16be;
    BodyWrites(list);
  }
}
