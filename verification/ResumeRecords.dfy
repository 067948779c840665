/** Resume records: how much of each fork a partial download already holds. */
module ResumeRecords {
  import opened Endian
  import opened Codec
  import opened Layouts

  datatype Entry = Entry(fork: u32, size: u32)

  datatype Resume = Resume(version: u16, entries: seq<Entry>)

  const RFLT: Bytes := [0x52, 0x46, 0x4C, 0x54]
  const DATA: u32 := 0x44415441

  function ToEntry(p: (nat, (nat, ()))): Entry {
    Entry(Clip32(p.0), Clip32(p.1.0))
  }

  function FromEntry(e: Entry): (nat, (nat, ())) {
    (e.fork, (e.size, ()))
  }

  /** Fork type, size, eight reserved bytes. */
  function OneEntry(): Codec<Entry> {
    Mapped(Pair(U32, Pair(U32, Skip(8))), p => ToEntry(p), e => FromEntry(e))
  }

  function Entries(): Codec<seq<Entry>> {
    After(Skip(34), Counted(U16, OneEntry()))
  }

  const VERSION := Where(U16, (v: nat) => v == 1, UnsupportedVersion)

  function RecordShape(): Codec<(nat, seq<Entry>)> {
    After(Tag(RFLT, WrongFormatTag), Pair(VERSION, Entries()))
  }

  function ToRecord(p: (nat, seq<Entry>)): Resume {
    Resume(Clip16(p.0), p.1)
  }

  function FromRecord(r: Resume): (nat, seq<Entry>) {
    (r.version, r.entries)
  }

  /** The format tag, version 1, 34 reserved bytes, a 16-bit count, the entries. */
  function Record(): Codec<Resume> {
    Mapped(RecordShape(), p => ToRecord(p), r => FromRecord(r))
  }

  lemma OneEntryLawful()
    ensures Lawful(OneEntry())
    ensures forall e :: OneEntry().fits(e)
  {
    hide Lawful, Exact;
    U32Lawful();
    SkipLawful(8);
    PairLawful(U32, Skip(8));
    PairLawful(U32, Pair(U32, Skip(8)));
    var c := Pair(U32, Pair(U32, Skip(8)));
    var to, from := (p: (nat, (nat, ()))) => ToEntry(p), (e: Entry) => FromEntry(e);
    forall p | c.fits(p) ensures from(to(p)) == p { assert p.1.1 == (); }
    MappedLawful(c, to, from);
  }

  lemma RecordLawful()
    ensures Lawful(Record())
    ensures forall r :: Record().fits(r) <==> r.version == 1 && |r.entries| <= MAX_COUNT
  {
    hide Lawful, Exact, OneEntry;
    U16Lawful();
    WhereLawful(U16, (v: nat) => v == 1, UnsupportedVersion);
    TagLawful(RFLT, WrongFormatTag);
    SkipLawful(34);
    OneEntryLawful();
    CountedLawful(U16, OneEntry());
    AfterLawful(Skip(34), Counted(U16, OneEntry()));
    PairLawful(VERSION, Entries());
    AfterLawful(Tag(RFLT, WrongFormatTag), Pair(VERSION, Entries()));
    assert Inverse(RecordShape(), p => ToRecord(p), r => FromRecord(r));
    MappedLawful(RecordShape(), p => ToRecord(p), r => FromRecord(r));
  }

  function Encoding(resume: Resume): Encoded {
    if |resume.entries| > MAX_COUNT then Refused(CountTooLarge) else Fine(Record().write(resume))
  }

  function Decoding(bytes: Bytes): Result<Resume> {
    Whole(Record(), 42, bytes)
  }

  // ------------------------------------------------------------------
  // The code
  // ------------------------------------------------------------------

  lemma EntryWrites(e: Entry)
    ensures OneEntry().write(e) == WriteU32be(e.fork) + WriteU32be(e.size) + Zeros(8)
  {
    hide WriteU32be;
  }

  lemma EntryReads(s: Bytes)
    ensures |s| < 16 ==> OneEntry().read(s) == Err(Truncated)
    ensures |s| >= 16 ==> OneEntry().read(s) == Ok((Entry(ReadU32be(s), ReadU32be(s[4..])), s[16..]))
  {
    hide ReadU32be;
    if |s| >= 8 {
      assert s[4..][4..] == s[8..];
      if |s| >= 16 {
        assert s[8..][8..] == s[16..];
      }
    }
  }

  /** Entries have a fixed size, so the count alone says how many bytes there must be. */
  lemma {:induction false} EntriesNeedRoom(count: nat, s: Bytes)
    ensures |s| < 16 * count ==> ReadMany(OneEntry(), count, s) == Err(Truncated)
    ensures |s| >= 16 * count ==>
              ReadMany(OneEntry(), count, s).Ok? && ReadMany(OneEntry(), count, s).value.1 == s[16 * count..]
  {
    hide OneEntry;
    EntryReads(s);
    if count == 0 || |s| < 16 {
    } else {
      EntriesNeedRoom(count - 1, s[16..]);
      if |s| >= 16 * count {
        assert s[16..][16 * (count - 1)..] == s[16 * count..];
      }
    }
  }

  lemma RecordWrites(r: Resume)
    ensures Record().write(r) ==
            RFLT + WriteU16be(r.version) + Zeros(34) + WriteU16be(|r.entries| % 0x1_0000)
                + WriteMany(OneEntry(), r.entries)
  {
    hide WriteU16be, OneEntry, After, Counted, U16;
    AfterOpens(Skip(34), Counted(U16, OneEntry()), r.entries, []);
    AfterOpens(Tag(RFLT, WrongFormatTag), Pair(VERSION, Entries()), FromRecord(r), []);
    CountedOpens(U16, OneEntry(), r.entries, []);
    U16Writes(r.version);
    U16Writes(|r.entries|);
  }

  lemma EntriesRead(s: Bytes)
    requires |s| >= 36
    ensures Entries().read(s) == ReadMany(OneEntry(), ReadU16be(s[34..]), s[36..])
  {
    hide ReadU16be, OneEntry, After, Counted;
    AfterOpens(Skip(34), Counted(U16, OneEntry()), [], s);
    assert s[34..][2..] == s[36..];
    CountedOpens(U16, OneEntry(), [], s[34..]);
  }

  function RecordRead(tag: Bytes, version: u16, entries: Result<seq<Entry>>): Result<Resume> {
    if tag != RFLT then Err(WrongFormatTag)
    else if version != 1 then Err(UnsupportedVersion)
    else if entries.Err? then Err(entries.error)
    else Ok(Resume(version, entries.value))
  }

  lemma RecordReads(s: Bytes)
    requires |s| >= 42
    ensures Decoding(s) == RecordRead(s[..4], ReadU16be(s[4..]),
                                      Ended(ReadMany(OneEntry(), ReadU16be(s[40..]), s[42..])))
  {
    hide ReadU16be, OneEntry, After, Entries;
    AfterOpens(Tag(RFLT, WrongFormatTag), Pair(VERSION, Entries()), (0, []), s);
    assert s[4..][2..] == s[6..] && s[6..][34..] == s[40..] && s[6..][36..] == s[42..];
    EntriesRead(s[6..]);
  }

  method Encode(resume: Resume) returns (r: Encoded)
    ensures r == Encoding(resume)
    ensures |resume.entries| > 65535 ==> r == Refused(CountTooLarge)
  {
    hide OneEntry, Record, WriteU32be, WriteU16be;
    if |resume.entries| > MAX_COUNT {
      return Refused(CountTooLarge);
    }
    var out := RFLT + WriteU16be(resume.version) + Zeros(34) + WriteU16be(|resume.entries|);
    ghost var header := out;
    var i := 0;
    while i < |resume.entries|
      invariant 0 <= i <= |resume.entries|
      invariant out == header + WriteMany(OneEntry(), resume.entries[..i])
    {
      var entry := resume.entries[i];
      out := out + (WriteU32be(entry.fork) + WriteU32be(entry.size) + Zeros(8));
      EntryWrites(entry);
      WriteManyAppend(OneEntry(), resume.entries[..i], entry);
      assert resume.entries[..i + 1] == resume.entries[..i] + [entry];
      i := i + 1;
    }
    assert resume.entries[..i] == resume.entries;
    RecordWrites(resume);
    r := Fine(out);
  }

  method Decode(bytes: Bytes) returns (r: Result<Resume>)
    ensures r == Decoding(bytes)
    ensures |bytes| >= 42 && bytes[..4] != [0x52, 0x46, 0x4C, 0x54] ==> r == Err(WrongFormatTag)
    ensures |bytes| >= 42 && bytes[..4] == [0x52, 0x46, 0x4C, 0x54] && ReadU16be(bytes[4..]) != 1 ==>
              r == Err(UnsupportedVersion)
  {
    hide OneEntry, Record, ReadU32be, ReadU16be;
    if |bytes| < 42 {
      return Err(Truncated);
    }
    RecordReads(bytes);
    hide Decoding;
    if bytes[..4] != RFLT {
      return Err(WrongFormatTag);
    }
    var version := ReadU16be(bytes[4..]);
    if version != 1 {
      return Err(UnsupportedVersion);
    }
    var count: nat := ReadU16be(bytes[40..]);
    var total := 42 + count * 16;
    EntriesNeedRoom(count, bytes[42..]);
    if |bytes| < total {
      return Err(Truncated);
    }
    if |bytes| > total {
      return Err(TrailingBytes);
    }
    var entries := DecodeEntries(count, bytes[42..]);
    r := Ok(Resume(version, entries));
  }

  method DecodeEntries(count: nat, bytes: Bytes) returns (entries: seq<Entry>)
    requires |bytes| == 16 * count
    ensures ReadMany(OneEntry(), count, bytes) == Ok((entries, []))
  {
    hide OneEntry, ReadU32be;
    entries := [];
    var i := 0;
    ExtendNothing(ReadMany(OneEntry(), count, bytes));
    assert bytes[0..] == bytes;
    while i < count
      invariant 0 <= i <= count
      invariant ReadMany(OneEntry(), count, bytes) == Extend(entries, ReadMany(OneEntry(), count - i, bytes[16 * i..]))
    {
      ReadManyStep(OneEntry(), count - i, entries, bytes[16 * i..]);
      EntryReads(bytes[16 * i..]);
      assert bytes[16 * i..][16..] == bytes[16 * (i + 1)..];
      assert bytes[16 * i..][4..] == bytes[16 * i + 4..];
      entries := entries + [Entry(ReadU32be(bytes[16 * i..]), ReadU32be(bytes[16 * i + 4..]))];
      i := i + 1;
    }
    ReadManyDone(OneEntry(), entries, bytes[16 * i..]);
  }

  /** The size in the last entry for the data fork, or 0. */
  method DataResumeSize(resume: Resume) returns (size: nat)
    ensures (forall k :: 0 <= k < |resume.entries| ==> resume.entries[k].fork != DATA) ==> size == 0
    ensures forall k :: 0 <= k < |resume.entries| && resume.entries[k].fork == DATA
                        && (forall j :: k < j < |resume.entries| ==> resume.entries[j].fork != DATA)
                        ==> size == resume.entries[k].size
  {
    size := 0;
    var i := 0;
    while i < |resume.entries|
      invariant 0 <= i <= |resume.entries|
      invariant (forall k :: 0 <= k < i ==> resume.entries[k].fork != DATA) ==> size == 0
      invariant forall k :: 0 <= k < i && resume.entries[k].fork == DATA
                            && (forall j :: k < j < i ==> resume.entries[j].fork != DATA)
                            ==> size == resume.entries[k].size
    {
      if resume.entries[i].fork == DATA {
        size := resume.entries[i].size;
      }
      i := i + 1;
    }
  }

  // ------------------------------------------------------------------
  // What survives
  // ------------------------------------------------------------------

  function EntriesMeaning(entries: seq<Entry>): seq<Care> {
    if entries == [] then [] else Kept(8) + Ignored(8) + EntriesMeaning(entries[1..])
  }

  /** Every byte but 34 in the header and eight in each entry. */
  function Meaning(r: Resume): seq<Care> {
    Kept(6) + Ignored(34) + Kept(2) + EntriesMeaning(r.entries)
  }

  lemma {:induction false} EntriesCares(entries: seq<Entry>)
    ensures CareMany(OneEntry(), entries) == EntriesMeaning(entries)
  {
    if entries == [] {
    } else {
      assert OneEntry().cares(entries[0]) == Kept(8) + Ignored(8);
      hide OneEntry;
      EntriesCares(entries[1..]);
    }
  }

  lemma RecordCares(r: Resume)
    ensures Record().cares(r) == Meaning(r)
  {
    hide OneEntry;
    EntriesCares(r.entries);
  }

  /** An encoded record comes back exactly when its version is 1. */
  lemma DecodeUndoesEncode(resume: Resume)
    requires Encoding(resume).Fine?
    ensures Decoding(Encoding(resume).bytes) == Ok(resume) <==> resume.version == 1
  {
    hide Lawful, Writes, Record, Whole;
    RecordLawful();
    if Decoding(Encoding(resume).bytes) == Ok(resume) {
      WholeReadsOnlyWritten(Record(), 42, Encoding(resume).bytes);
    }
    if resume.version == 1 {
      WritesItself(Record(), resume);
      RecordWrites(resume);
      WholeLaws(Record(), 42, resume, Record().write(resume), 0, []);
    }
  }

  /** Whatever stands in the reserved bytes, the same record is read; cut it is truncated, and nothing may follow it. */
  lemma ReservedBytesAreIgnored(resume: Resume, b: Bytes, n: nat, more: Bytes)
    requires Encoding(resume).Fine? && resume.version == 1 && Agreed(Meaning(resume), b, Encoding(resume).bytes)
    ensures Decoding(b) == Ok(resume)
    ensures n < |b| ==> Decoding(b[..n]) == Err(Truncated)
    ensures more != [] ==> Decoding(b + more) == Err(TrailingBytes)
  {
    hide Lawful, Record, Whole;
    RecordLawful();
    RecordCares(resume);
    RecordWrites(resume);
    WholeLaws(Record(), 42, resume, b, n, more);
  }

  /** Encoding what was decoded changes reserved bytes only, and is read as the same record. */
  lemma EncodeUndoesDecode(b: Bytes)
    requires Decoding(b).Ok?
    ensures var resume := Decoding(b).value;
            && Encoding(resume).Fine? && Agreed(Meaning(resume), b, Encoding(resume).bytes)
            && Decoding(Encoding(resume).bytes) == Ok(resume)
  {
    hide Lawful, Record, Whole, Agreed;
    RecordLawful();
    WholeReadsOnlyWritten(Record(), 42, b);
    var resume := Decoding(b).value;
    RecordCares(resume);
    DecodeUndoesEncode(resume);
  }

  /** The encoding written out: 'RFLT', the version, 34 zeros, the count, the entries. */
  lemma EncodingIs(resume: Resume)
    requires Encoding(resume).Fine?
    ensures Encoding(resume).bytes ==
            [0x52, 0x46, 0x4C, 0x54] + WriteU16be(resume.version) + Zeros(34) + WriteU16be(|resume.entries|)
            + WriteMany(OneEntry(), resume.entries)
  {
    hide Record, OneEntry, WriteU16be;
    RecordWrites(resume);
  }
}
