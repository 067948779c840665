/** The information fork of a flat file: 72 fixed bytes, a name and a comment. */
module InfoForks {
  import opened Endian
  import opened Codec
  import opened Layouts

  datatype Stamp = Stamp(year: u16, milliseconds: u16, seconds: u32)

  datatype Ids = Ids(platform: u32, kind: u32, creator: u32, flags: u32, platformFlags: u32)

  type Reserved = b: Bytes | |b| == 32 witness Zeros(32)

  datatype Info = Info(ids: Ids, reserved: Reserved, created: Stamp, modified: Stamp, script: u16, name: Bytes,
                       comment: Bytes)

  function OneStamp(): Codec<Stamp> {
    Mapped(Pair(U16, Pair(U16, U32)),
           (p: (nat, (nat, nat))) => Stamp(Clip16(p.0), Clip16(p.1.0), Clip32(p.1.1)),
           (s: Stamp) => (s.year, (s.milliseconds, s.seconds)))
  }

  function OneIds(): Codec<Ids> {
    Mapped(Pair(Pair(U32, U32), Pair(U32, Pair(U32, U32))),
           (p: ((nat, nat), (nat, (nat, nat)))) =>
             Ids(Clip32(p.0.0), Clip32(p.0.1), Clip32(p.1.0), Clip32(p.1.1.0), Clip32(p.1.1.1)),
           (i: Ids) => ((i.platform, i.kind), (i.creator, (i.flags, i.platformFlags))))
  }

  function Head(): Codec<((Ids, Bytes), ((Stamp, Stamp), nat))> {
    Pair(Pair(OneIds(), Raw(32)), Pair(Pair(OneStamp(), OneStamp()), U16))
  }

  function Texts(): Codec<(Bytes, Bytes)> {
    Pair(Blob(U16), Blob(U16))
  }

  function ToInfo(p: (((Ids, Bytes), ((Stamp, Stamp), nat)), (Bytes, Bytes))): Info {
    var (((ids, reserved), ((created, modified), script)), (name, comment)) := p;
    Info(ids, if |reserved| == 32 then reserved else Zeros(32), created, modified, Clip16(script), name, comment)
  }

  function FromInfo(i: Info): (((Ids, Bytes), ((Stamp, Stamp), nat)), (Bytes, Bytes)) {
    (((i.ids, i.reserved), ((i.created, i.modified), i.script)), (i.name, i.comment))
  }

  /** Five identifiers, 32 reserved bytes kept as they are, two dates, a script, and two sized texts. */
  function OneInfo(): Codec<Info> {
    Mapped(Pair(Head(), Texts()), p => ToInfo(p), i => FromInfo(i))
  }

  lemma OneStampLawful()
    ensures Lawful(OneStamp()) && Exact(OneStamp())
    ensures forall s :: OneStamp().fits(s)
  {
    hide Lawful, Exact;
    U16Lawful();
    U32Lawful();
    PairLawful(U16, U32);
    PairLawful(U16, Pair(U16, U32));
    var to, from := (p: (nat, (nat, nat))) => Stamp(Clip16(p.0), Clip16(p.1.0), Clip32(p.1.1)),
                    (s: Stamp) => (s.year as nat, (s.milliseconds as nat, s.seconds as nat));
    assert Inverse(Pair(U16, Pair(U16, U32)), to, from);
    MappedLawful(Pair(U16, Pair(U16, U32)), to, from);
  }

  lemma OneIdsLawful()
    ensures Lawful(OneIds()) && Exact(OneIds())
    ensures forall i :: OneIds().fits(i)
  {
    hide Lawful, Exact;
    U32Lawful();
    PairLawful(U32, U32);
    PairLawful(U32, Pair(U32, U32));
    PairLawful(Pair(U32, U32), Pair(U32, Pair(U32, U32)));
    var c := Pair(Pair(U32, U32), Pair(U32, Pair(U32, U32)));
    var to, from := (p: ((nat, nat), (nat, (nat, nat)))) =>
                      Ids(Clip32(p.0.0), Clip32(p.0.1), Clip32(p.1.0), Clip32(p.1.1.0), Clip32(p.1.1.1)),
                    (i: Ids) => ((i.platform as nat, i.kind as nat),
                                 (i.creator as nat, (i.flags as nat, i.platformFlags as nat)));
    assert Inverse(c, to, from);
    MappedLawful(c, to, from);
  }

  lemma HeadLawful()
    ensures Lawful(Head()) && Exact(Head())
    ensures forall h :: Head().fits(h) <==> |h.0.1| == 32 && h.1.1 < 0x1_0000
  {
    hide Lawful, Exact, OneIds, OneStamp;
    OneIdsLawful();
    OneStampLawful();
    U16Lawful();
    RawLawful(32);
    PairLawful(OneIds(), Raw(32));
    PairLawful(OneStamp(), OneStamp());
    PairLawful(Pair(OneStamp(), OneStamp()), U16);
    PairLawful(Pair(OneIds(), Raw(32)), Pair(Pair(OneStamp(), OneStamp()), U16));
    forall h ensures Head().fits(h) <==> |h.0.1| == 32 && h.1.1 < 0x1_0000 {
      assert OneIds().fits(h.0.0) && OneStamp().fits(h.1.0.0) && OneStamp().fits(h.1.0.1);
    }
  }

  lemma TextsLawful()
    ensures Lawful(Texts()) && Exact(Texts())
    ensures forall t :: Texts().fits(t) <==> |t.0| <= MAX_SIZE && |t.1| <= MAX_SIZE
  {
    hide Lawful, Exact;
    U16Lawful();
    BlobLawful(U16);
    PairLawful(Blob(U16), Blob(U16));
  }

  lemma OneInfoLawful()
    ensures Lawful(OneInfo()) && Exact(OneInfo())
    ensures forall i :: OneInfo().fits(i) <==> |i.name| <= MAX_SIZE && |i.comment| <= MAX_SIZE
  {
    hide Lawful, Exact, Head, Texts;
    HeadLawful();
    TextsLawful();
    var c := Pair(Head(), Texts());
    PairLawful(Head(), Texts());
    forall p | c.fits(p) ensures FromInfo(ToInfo(p)) == p {
      assert Head().fits(p.0);
      var q := FromInfo(ToInfo(p));
      assert q.0.0 == p.0.0 && q.0.1.0 == p.0.1.0 && q.0.1 == p.0.1 && q.1 == p.1;
    }
    MappedLawful(c, p => ToInfo(p), i => FromInfo(i));
  }

  function Encoding(i: Info): Encoded {
    if |i.name| > MAX_SIZE || |i.comment| > MAX_SIZE then Refused(StringTooLong) else Fine(OneInfo().write(i))
  }

  function Decoding(bytes: Bytes): Result<Info> {
    Whole(OneInfo(), 72, bytes)
  }

  // ------------------------------------------------------------------
  // The code
  // ------------------------------------------------------------------

  function StampBytes(s: Stamp): (b: Bytes)
    ensures |b| == 8
  {
    WriteU16be(s.year) + WriteU16be(s.milliseconds) + WriteU32be(s.seconds)
  }

  function StampAt(s: Bytes): Stamp
    requires |s| >= 8
  {
    Stamp(ReadU16be(s), ReadU16be(s[2..]), ReadU32be(s[4..]))
  }

  function IdsBytes(i: Ids): (b: Bytes)
    ensures |b| == 20
  {
    WriteU32be(i.platform) + WriteU32be(i.kind) + WriteU32be(i.creator) + WriteU32be(i.flags)
        + WriteU32be(i.platformFlags)
  }

  function IdsAt(s: Bytes): Ids
    requires |s| >= 20
  {
    Ids(ReadU32be(s), ReadU32be(s[4..]), ReadU32be(s[8..]), ReadU32be(s[12..]), ReadU32be(s[16..]))
  }

  lemma StampOpens(x: Stamp, s: Bytes)
    ensures OneStamp().write(x) == StampBytes(x)
    ensures |s| >= 8 ==> OneStamp().read(s) == Ok((StampAt(s), s[8..]))
  {
    hide ReadU16be, WriteU16be, ReadU32be, WriteU32be;
    if |s| >= 8 {
      assert s[2..][2..] == s[4..] && s[4..][4..] == s[8..];
    }
  }

  lemma IdsOpens(x: Ids, s: Bytes)
    ensures OneIds().write(x) == IdsBytes(x)
    ensures |s| >= 20 ==> OneIds().read(s) == Ok((IdsAt(s), s[20..]))
  {
    IdsWrite(x);
    IdsRead(s);
  }

  lemma IdsWrite(x: Ids)
    ensures OneIds().write(x) == IdsBytes(x)
  {
    hide WriteU32be, U32;
    U32Writes(x.platform);
    U32Writes(x.kind);
    U32Writes(x.creator);
    U32Writes(x.flags);
    U32Writes(x.platformFlags);
  }

  lemma IdsRead(s: Bytes)
    ensures |s| >= 20 ==> OneIds().read(s) == Ok((IdsAt(s), s[20..]))
  {
    hide ReadU32be;
    if |s| >= 20 {
      assert s[4..][4..] == s[8..] && s[8..][4..] == s[12..] && s[12..][4..] == s[16..] && s[16..][4..] == s[20..];
    }
  }

  lemma HeadWrites(i: Info)
    ensures Head().write(FromInfo(i).0) ==
            IdsBytes(i.ids) + i.reserved + StampBytes(i.created) + StampBytes(i.modified) + WriteU16be(i.script)
  {
    hide OneIds, OneStamp, IdsBytes, StampBytes, WriteU16be;
    IdsOpens(i.ids, []);
    StampOpens(i.created, []);
    StampOpens(i.modified, []);
  }

  lemma HeadReads(s: Bytes)
    requires |s| >= 70
    ensures Head().read(s) ==
            Ok((((IdsAt(s), s[20..52]), ((StampAt(s[52..]), StampAt(s[60..])), ReadU16be(s[68..]) as nat)), s[70..]))
  {
    hide OneIds, OneStamp, IdsAt, StampAt, ReadU16be;
    var i, t := Ids(0, 0, 0, 0, 0), Stamp(0, 0, 0);
    IdsOpens(i, s);
    StampOpens(t, s[52..]);
    StampOpens(t, s[60..]);
    assert s[20..][..32] == s[20..52] && s[20..][32..] == s[52..] && s[52..][8..] == s[60..] && s[60..][8..] == s[68..];
    assert s[68..][2..] == s[70..];
  }

  /** Two sized texts one after another. */
  function TextsAt(s: Bytes): Result<((Bytes, Bytes), Bytes)>
    requires |s| >= 2
  {
    var n := 2 + ReadU16be(s) as int;
    if |s| < n + 2 then Err(Truncated)
    else
      var m := n + 2 + ReadU16be(s[n..]) as int;
      if |s| < m then Err(Truncated) else Ok(((s[2..n], s[n + 2..m]), s[m..]))
  }

  lemma TextsReads(s: Bytes)
    requires |s| >= 2
    ensures Texts().read(s) == TextsAt(s)
  {
    hide ReadU16be, Blob;
    BlobOpens(U16, [], s);
    var n := 2 + ReadU16be(s) as int;
    if |s| >= n {
      assert s[2..][..n - 2] == s[2..n] && s[2..][n - 2..] == s[n..];
      BlobOpens(U16, [], s[n..]);
      if |s| >= n + 2 {
        var m := n + 2 + ReadU16be(s[n..]) as int;
        assert s[n..][2..] == s[n + 2..];
        if |s| >= m {
          assert s[n + 2..][..m - n - 2] == s[n + 2..m] && s[n + 2..][m - n - 2..] == s[m..];
        }
      }
    }
  }

  lemma TextsWrite(name: Bytes, comment: Bytes)
    requires |name| <= MAX_SIZE && |comment| <= MAX_SIZE
    ensures Texts().write((name, comment)) == WriteU16be(|name|) + name + (WriteU16be(|comment|) + comment)
  {
    hide WriteU16be, Blob;
    BlobOpens(U16, name, []);
    BlobOpens(U16, comment, []);
  }

  method Encode(i: Info) returns (e: Encoded)
    ensures e == Encoding(i)
    ensures |i.name| > 65535 || |i.comment| > 65535 ==> e == Refused(StringTooLong)
  {
    hide Head, Texts, WriteU16be, IdsBytes, StampBytes;
    if |i.name| > MAX_SIZE || |i.comment| > MAX_SIZE {
      return Refused(StringTooLong);
    }
    var out := IdsBytes(i.ids) + i.reserved + StampBytes(i.created) + StampBytes(i.modified) + WriteU16be(i.script);
    HeadWrites(i);
    TextsWrite(i.name, i.comment);
    out := out + (WriteU16be(|i.name|) + i.name + (WriteU16be(|i.comment|) + i.comment));
    e := Fine(out);
  }

  lemma InfoReads(s: Bytes)
    requires |s| >= 72
    ensures var texts := TextsAt(s[70..]);
            Decoding(s) == if texts.Err? then Err(texts.error)
                           else if texts.value.1 != [] then Err(TrailingBytes)
                           else Ok(Info(IdsAt(s), s[20..52], StampAt(s[52..]), StampAt(s[60..]), ReadU16be(s[68..]),
                                        texts.value.0.0, texts.value.0.1))
  {
    hide Head, Texts, IdsAt, StampAt, ReadU16be, TextsAt;
    HeadReads(s);
    TextsReads(s[70..]);
  }

  method Decode(bytes: Bytes) returns (r: Result<Info>)
    ensures r == Decoding(bytes)
  {
    hide IdsAt, StampAt, ReadU16be, OneInfo;
    if |bytes| < 72 {
      return Err(Truncated);
    }
    InfoReads(bytes);
    hide Decoding;
    var ids, created, modified := IdsAt(bytes), StampAt(bytes[52..]), StampAt(bytes[60..]);
    var script := ReadU16be(bytes[68..]);
    var nameSize: int := ReadU16be(bytes[70..]);
    if |bytes| < 72 + nameSize + 2 {
      return Err(Truncated);
    }
    var name := bytes[72..72 + nameSize];
    assert bytes[70..][2 + nameSize..] == bytes[72 + nameSize..];
    var commentSize: int := ReadU16be(bytes[72 + nameSize..]);
    var total := 72 + nameSize + 2 + commentSize;
    if |bytes| < total {
      return Err(Truncated);
    }
    assert bytes[70..][total - 70..] == bytes[total..];
    if |bytes| > total {
      return Err(TrailingBytes);
    }
    assert bytes[70..][2..2 + nameSize] == name;
    assert bytes[70..][4 + nameSize..total - 70] == bytes[74 + nameSize..total];
    r := Ok(Info(ids, bytes[20..52], created, modified, script, name, bytes[74 + nameSize..total]));
  }

  // ------------------------------------------------------------------
  // The codec is a bijection
  // ------------------------------------------------------------------

  /** What is encoded decodes to itself; cut anywhere it is truncated, and nothing may follow it. */
  lemma DecodeUndoesEncode(i: Info, n: nat, more: Bytes)
    requires Encoding(i).Fine?
    ensures var b := Encoding(i).bytes;
            && Decoding(b) == Ok(i)
            && (n < |b| ==> Decoding(b[..n]) == Err(Truncated))
            && (more != [] ==> Decoding(b + more) == Err(TrailingBytes))
  {
    hide Lawful, Exact, Writes, OneInfo, Whole;
    OneInfoLawful();
    InfoRoom(i);
    WritesItself(OneInfo(), i);
    WholeLaws(OneInfo(), 72, i, OneInfo().write(i), n, more);
  }

  lemma InfoRoom(i: Info)
    requires |i.name| <= MAX_SIZE && |i.comment| <= MAX_SIZE
    ensures |OneInfo().write(i)| >= 72
  {
    hide Head, Texts, WriteU16be, IdsBytes, StampBytes;
    HeadWrites(i);
    TextsWrite(i.name, i.comment);
  }

  /** What is decoded encodes to exactly the bytes it came from. */
  lemma EncodeUndoesDecode(b: Bytes)
    requires Decoding(b).Ok?
    ensures Encoding(Decoding(b).value) == Fine(b)
  {
    hide Lawful, Exact, OneInfo, Whole;
    OneInfoLawful();
    WholeReadsOnlyWritten(OneInfo(), 72, b);
  }

  /** The encoding written out: every field, highest byte first, in this order. */
  lemma EncodingIs(i: Info)
    requires Encoding(i).Fine?
    ensures Encoding(i).bytes ==
            WriteU32be(i.ids.platform) + WriteU32be(i.ids.kind) + WriteU32be(i.ids.creator) + WriteU32be(i.ids.flags)
            + WriteU32be(i.ids.platformFlags) + i.reserved
            + WriteU16be(i.created.year) + WriteU16be(i.created.milliseconds) + WriteU32be(i.created.seconds)
            + WriteU16be(i.modified.year) + WriteU16be(i.modified.milliseconds) + WriteU32be(i.modified.seconds)
            + WriteU16be(i.script) + WriteU16be(|i.name|) + i.name + WriteU16be(|i.comment|) + i.comment
  {
    hide Head, Texts, WriteU16be, WriteU32be;
    HeadWrites(i);
    TextsWrite(i.name, i.comment);
  }
}
