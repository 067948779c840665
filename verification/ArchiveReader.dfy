/** Reading an archive, and what a successful reading says about its bytes. */
module ArchiveReader {
  import opened Endian
  import opened Codec
  import opened Layouts
  import opened FolderItems
  import opened Archives

  // ------------------------------------------------------------------
  // The documented layout, written out
  // ------------------------------------------------------------------

  function PathBytes(path: seq<Component>): Bytes {
    if path == [] then []
    else WriteU16be(path[0].script) + PutU8(|path[0].name|) + path[0].name + PathBytes(path[1..])
  }

  function PathBlock(path: seq<Component>): Bytes {
    PutU16(|path|) + PathBytes(path)
  }

  function TailBytes(e: Entry): Bytes {
    PutU16(|e.reserved|) + e.reserved
        + (WriteU32be(e.compression) + WriteU32be(e.decompressed) + (PutU32(|e.payload|) + e.payload))
  }

  function EntryBytes(e: Entry): Bytes {
    WriteU32be(e.kind) + Zeros(4) + (PutU16(|PathBlock(e.path)|) + PathBlock(e.path)) + TailBytes(e)
  }

  function EntriesBytes(entries: seq<Entry>): Bytes {
    if entries == [] then [] else EntryBytes(entries[0]) + EntriesBytes(entries[1..])
  }

  function HeaderBytes(a: Archive): Bytes {
    HARC + WriteU32be(a.version) + WriteU32be(a.size) + Zeros(16) + PutName(64, a.name)
  }

  function Serialised(a: Archive): Bytes {
    HeaderBytes(a) + PutU16(|a.entries|) + WriteU16be(a.autoLaunch) + (PutU16(|a.reserved|) + a.reserved)
        + EntriesBytes(a.entries)
  }

  /** Sixteen reserved bytes in the header and four in each entry are ignored, and what pads the name is. */
  function EntryMeaning(e: Entry): seq<Care> {
    Kept(4) + Ignored(4) + Kept(2 + |PathBlock(e.path)|) + Kept(|TailBytes(e)|)
  }

  function EntriesMeaning(entries: seq<Entry>): seq<Care> {
    if entries == [] then [] else EntryMeaning(entries[0]) + EntriesMeaning(entries[1..])
  }

  function Meaning(a: Archive): seq<Care> {
    Kept(12) + Ignored(16) + NameCares(64, true, a.name) + Kept(6 + |a.reserved|) + EntriesMeaning(a.entries)
  }

  // ------------------------------------------------------------------
  // It is the layout that is read
  // ------------------------------------------------------------------

  lemma {:induction false} PathWrites(path: seq<Component>)
    ensures WriteMany(OneComponent(), path) == PathBytes(path)
  {
    if path == [] {
    } else {
      ComponentWrites(path[0]);
      hide OneComponent;
      PathWrites(path[1..]);
    }
  }

  lemma ComponentWrites(c: Component)
    ensures OneComponent().write(c) == WriteU16be(c.script) + PutU8(|c.name|) + c.name
  {
    hide Blob, WriteU16be, PutU8;
    BlobOpens(U8, c.name, []);
  }

  lemma PathBlockWrites(path: seq<Component>)
    ensures Path().write(path) == PathBlock(path)
    ensures Path().cares(path) == Kept(|PathBlock(path)|)
  {
    hide OneComponent, Counted, Lawful;
    CountedOpens(U16, OneComponent(), path, []);
    PathWrites(path);
    PathLawful();
  }

  lemma TailWrites(e: Entry)
    ensures Tail().write((e.reserved, ((e.compression, e.decompressed), e.payload))) == TailBytes(e)
    ensures Tail().cares((e.reserved, ((e.compression, e.decompressed), e.payload))) == Kept(|TailBytes(e)|)
  {
    hide Blob, Lawful, WriteU32be;
    BlobOpens(U16, e.reserved, []);
    BlobOpens(U32, e.payload, []);
    TailExact();
  }

  lemma TailExact()
    ensures Exact(Tail())
  {
    hide Lawful, Exact;
    U16Lawful();
    U32Lawful();
    BlobLawful(U16);
    BlobLawful(U32);
    PairLawful(U32, U32);
    PairLawful(Pair(U32, U32), Blob(U32));
    PairLawful(Blob(U16), Pair(Pair(U32, U32), Blob(U32)));
  }

  lemma EntryWrites(e: Entry)
    ensures OneEntry().write(e) == EntryBytes(e)
    ensures OneEntry().cares(e) == EntryMeaning(e)
  {
    hide Path, Tail, PathBlock, TailBytes, WriteU32be;
    PathBlockWrites(e.path);
    TailWrites(e);
  }

  lemma {:induction false} EntriesWrite(entries: seq<Entry>)
    ensures WriteMany(OneEntry(), entries) == EntriesBytes(entries)
    ensures CareMany(OneEntry(), entries) == EntriesMeaning(entries)
  {
    hide OneEntry, EntryBytes, EntryMeaning;
    if entries == [] {
    } else {
      EntryWrites(entries[0]);
      EntriesWrite(entries[1..]);
    }
  }

  lemma HeaderWrites(a: Archive)
    ensures Header().write(((a.version, a.size), a.name)) == HeaderBytes(a)
    ensures Header().cares(((a.version, a.size), a.name)) == Kept(12) + Ignored(16) + NameCares(64, true, a.name)
  {
    hide WriteU32be, PutName, NameCares;
  }

  lemma BodyWrites(count: nat, x: ((nat, Bytes), seq<Entry>))
    ensures Body(count).write(x) == PutU16(x.0.0) + (PutU16(|x.0.1|) + x.0.1) + WriteMany(OneEntry(), x.1)
    ensures Body(count).cares(x) == Kept(4 + |x.0.1|) + CareMany(OneEntry(), x.1)
  {
    hide OneEntry, Blob, PutU16;
    BlobOpens(U16, x.0.1, []);
    assert Blob(U16).cares(x.0.1) == Kept(2 + |x.0.1|) by { BlobCares(x.0.1); }
    assert Kept(2) + Kept(2 + |x.0.1|) == Kept(4 + |x.0.1|);
  }

  lemma BlobCares(x: Bytes)
    ensures Blob(U16).cares(x) == Kept(2 + |x|)
  {
  }

  lemma ContentsWrite(a: Archive)
    ensures Contents().write(((a.autoLaunch, a.reserved), a.entries)) ==
            PutU16(|a.entries|) + WriteU16be(a.autoLaunch) + (PutU16(|a.reserved|) + a.reserved)
                + EntriesBytes(a.entries)
    ensures Contents().cares(((a.autoLaunch, a.reserved), a.entries)) == Kept(6 + |a.reserved|)
            + EntriesMeaning(a.entries)
  {
    hide OneEntry, EntriesBytes, EntriesMeaning, Body, PutU16;
    EntriesWrite(a.entries);
    BodyWrites(|a.entries|, ((a.autoLaunch, a.reserved), a.entries));
    SmallU16(a.autoLaunch);
    assert Kept(2) + Kept(4 + |a.reserved|) == Kept(6 + |a.reserved|);
  }

  lemma SmallU16(v: u16)
    ensures PutU16(v) == WriteU16be(v)
  {
    hide WriteU16be;
  }

  lemma FileWrites(a: Archive)
    ensures File().write(a) == Serialised(a)
    ensures File().cares(a) == Meaning(a)
  {
    hide Header, Contents, HeaderBytes, EntriesBytes, EntriesMeaning, NameCares, PutU16, WriteU16be;
    HeaderWrites(a);
    ContentsWrite(a);
  }

  // ------------------------------------------------------------------
  // The code
  // ------------------------------------------------------------------

  /** The part behind the path block, read by position. */
  function TailAt(s: Bytes): Result<((Bytes, ((nat, nat), Bytes)), Bytes)> {
    if |s| < 2 then Err(Truncated)
    else
      var n, rest := ReadU16be(s) as int, s[2..];
      if |rest| < n then Err(Truncated)
      else
        var rest' := rest[n..];
        if |rest'| < 12 then Err(Truncated)
        else
          var size, rest'' := ReadU32be(rest'[8..]) as int, rest'[12..];
          if |rest''| < size then Err(Truncated)
          else Ok(((rest[..n], ((ReadU32be(rest'), ReadU32be(rest'[4..])), rest''[..size])), rest''[size..]))
  }

  function PayloadAt(s: Bytes): Result<(((nat, nat), Bytes), Bytes)> {
    if |s| < 12 then Err(Truncated)
    else
      var size, rest := ReadU32be(s[8..]) as int, s[12..];
      if |rest| < size then Err(Truncated)
      else Ok((((ReadU32be(s), ReadU32be(s[4..])), rest[..size]), rest[size..]))
  }

  lemma PayloadReads(s: Bytes)
    ensures Pair(Pair(U32, U32), Blob(U32)).read(s) == PayloadAt(s)
  {
    hide ReadU32be, Blob;
    if |s| >= 8 {
      assert s[4..][4..] == s[8..];
      BlobOpens(U32, [], s[8..]);
      if |s| >= 12 {
        assert s[8..][4..] == s[12..];
      }
    }
  }

  lemma TailReads(s: Bytes)
    ensures Tail().read(s) == TailAt(s)
  {
    hide ReadU16be, ReadU32be, Blob;
    BlobOpens(U16, [], s);
    if |s| >= 2 && |s[2..]| >= ReadU16be(s) as int {
      PayloadReads(s[2..][ReadU16be(s)..]);
    }
  }

  /** An entry, once its path and its tail are read. */
  function EntryRead(kind: u32, path: Result<seq<Component>>,
                     tail: Result<((Bytes, ((nat, nat), Bytes)), Bytes)>): Result<(Entry, Bytes)> {
    if path.Err? then Err(path.error)
    else if tail.Err? then Err(tail.error)
    else Ok((ToEntry((kind, (path.value, tail.value.0))), tail.value.1))
  }

  lemma EntryReads(s: Bytes)
    ensures |s| < 10 ==> OneEntry().read(s) == Err(Truncated)
    ensures |s| >= 10 ==>
              var n := ReadU16be(s[8..]) as int;
              OneEntry().read(s) ==
              if |s[10..]| < n then Err(Truncated)
              else EntryRead(ReadU32be(s), Whole(Path(), 0, s[10..][..n]), Tail().read(s[10..][n..]))
  {
    hide ReadU16be, ReadU32be, Blob, Path, Tail, Whole, After;
    if |s| >= 4 {
      AfterOpens(Skip(4), Pair(Boxed(U16, Path()), Tail()), ([], ([], ((0, 0), []))), s[4..]);
      if |s| >= 8 {
        assert s[4..][4..] == s[8..];
        BlobOpens(U16, [], s[8..]);
        if |s| >= 10 {
          assert s[8..][2..] == s[10..];
        }
      }
    }
  }

  lemma PathReads(block: Bytes)
    ensures Whole(Path(), 0, block) ==
            if |block| < 2 then Err(Truncated) else Ended(ReadMany(OneComponent(), ReadU16be(block), block[2..]))
  {
    hide ReadU16be, OneComponent, Counted;
    CountedOpens(U16, OneComponent(), [], block);
  }

  method TakeEntry(input: Bytes) returns (r: Result<(Entry, Bytes)>)
    ensures r == OneEntry().read(input)
  {
    hide OneEntry, ReadU16be, ReadU32be, Whole, Tail, OneComponent;
    var bytes := input;
    EntryReads(bytes);
    if |bytes| < 10 {
      return Err(Truncated);
    }
    var kind, pathSize: int := ReadU32be(bytes), ReadU16be(bytes[8..]);
    bytes := bytes[10..];
    if |bytes| < pathSize {
      return Err(Truncated);
    }
    var pathBytes := bytes[..pathSize];
    PathReads(pathBytes);
    if |pathBytes| < 2 {
      return Err(Truncated);
    }
    var path := DecodePath(ReadU16be(pathBytes), pathBytes[2..]);
    if path.Err? {
      return Err(path.error);
    }
    bytes := bytes[pathSize..];
    TailReads(bytes);
    if |bytes| < 2 {
      return Err(Truncated);
    }
    var reservedSize: int := ReadU16be(bytes);
    bytes := bytes[2..];
    if |bytes| < reservedSize {
      return Err(Truncated);
    }
    var reserved := bytes[..reservedSize];
    bytes := bytes[reservedSize..];
    if |bytes| < 12 {
      return Err(Truncated);
    }
    var compression, decompressed, size: int := ReadU32be(bytes), ReadU32be(bytes[4..]), ReadU32be(bytes[8..]);
    bytes := bytes[12..];
    if |bytes| < size {
      return Err(Truncated);
    }
    r := Ok((Entry(kind, path.value, reserved, compression, decompressed, bytes[..size]), bytes[size..]));
  }

  function NameAt(s: Bytes): Bytes
    requires |s| >= 98
  {
    s[29..29 + Min(s[28], 63)]
  }

  lemma HeaderReads(s: Bytes)
    requires |s| >= 98
    ensures Header().read(s) ==
            if s[..4] != HARC then Err(WrongFormatTag)
            else if ReadU32be(s[4..]) != 1 then Err(UnsupportedVersion)
            else Ok((((ReadU32be(s[4..]) as nat, ReadU32be(s[8..]) as nat), NameAt(s)), s[92..]))
  {
    hide ReadU32be;
    assert s[4..][4..] == s[8..] && s[8..][4..] == s[12..] && s[12..][16..] == s[28..] && s[28..][64..] == s[92..];
    assert s[28..][1..1 + Min(s[28], 63)] == NameAt(s);
  }

  lemma ContentsReads(s: Bytes)
    requires |s| >= 6
    ensures var n := ReadU16be(s[4..]) as int;
            Contents().read(s) ==
            if |s[6..]| < n then Err(Truncated)
            else
              var entries := ReadMany(OneEntry(), ReadU16be(s), s[6..][n..]);
              if entries.Err? then Err(entries.error)
              else Ok((((ReadU16be(s[2..]) as nat, s[6..][..n]), entries.value.0), entries.value.1))
  {
    hide ReadU16be, OneEntry, Blob;
    assert s[2..][2..] == s[4..] && s[4..][2..] == s[6..];
    BlobOpens(U16, [], s[4..]);
  }

  method DecodeEntries(count: nat, bytes: Bytes) returns (r: Result<seq<Entry>>)
    ensures r == Ended(ReadMany(OneEntry(), count, bytes))
  {
    hide OneEntry;
    var rest := bytes;
    var entries: seq<Entry> := [];
    var i := 0;
    ExtendNothing(ReadMany(OneEntry(), count, bytes));
    while i < count
      invariant 0 <= i <= count
      invariant ReadMany(OneEntry(), count, bytes) == Extend(entries, ReadMany(OneEntry(), count - i, rest))
    {
      ReadManyStep(OneEntry(), count - i, entries, rest);
      var entry := TakeEntry(rest);
      if entry.Err? {
        return Err(entry.error);
      }
      rest := entry.value.1;
      entries := entries + [entry.value.0];
      i := i + 1;
    }
    ReadManyDone(OneEntry(), entries, rest);
    if rest != [] {
      return Err(TrailingBytes);
    }
    r := Ok(entries);
  }

  /** The archive, once the header and the contents are read. */
  lemma FileReads(s: Bytes)
    requires |s| >= 98
    ensures var h := Header().read(s);
            Decoding(s) ==
            if h.Err? then Err(h.error)
            else
              var c := Contents().read(h.value.1);
              if c.Err? then Err(c.error)
              else if c.value.1 != [] then Err(TrailingBytes)
              else Ok(ToArchive((h.value.0, c.value.0)))
  {
    hide Header, Contents, ToArchive;
  }

  method Decode(input: Bytes) returns (r: Result<Archive>)
    ensures r == Decoding(input)
    ensures |input| >= 98 && input[..4] != [0x68, 0x61, 0x72, 0x63] ==> r == Err(WrongFormatTag)
    ensures |input| >= 98 && input[..4] == [0x68, 0x61, 0x72, 0x63] && ReadU32be(input[4..]) != 1 ==>
              r == Err(UnsupportedVersion)
  {
    hide OneEntry, Header, Contents, ReadU16be, ReadU32be, NameAt, Decoding;
    if |input| < 98 {
      ShortIsTruncated(input);
      return Err(Truncated);
    }
    FileReads(input);
    HeaderReads(input);
    ContentsReads(input[92..]);
    assert input[92..][2..] == input[94..] && input[92..][4..] == input[96..] && input[92..][6..] == input[98..];
    if input[..4] != HARC {
      return Err(WrongFormatTag);
    }
    var version := ReadU32be(input[4..]);
    if version != 1 {
      return Err(UnsupportedVersion);
    }
    var size, name := ReadU32be(input[8..]), NameAt(input);
    var count, autoLaunch, reservedSize: int := ReadU16be(input[92..]), ReadU16be(input[94..]), ReadU16be(input[96..]);
    var bytes := input[98..];
    if |bytes| < reservedSize {
      return Err(Truncated);
    }
    var reserved := bytes[..reservedSize];
    bytes := bytes[reservedSize..];
    var entries := DecodeEntries(count, bytes);
    if entries.Err? {
      return Err(entries.error);
    }
    r := Ok(Archive(version, size, name, autoLaunch, reserved, entries.value));
  }

  lemma ShortIsTruncated(s: Bytes)
    requires |s| < 98
    ensures Decoding(s) == Err(Truncated)
  {
  }

  // ------------------------------------------------------------------
  // What a reading says
  // ------------------------------------------------------------------

  lemma SerialisedRoom(a: Archive)
    ensures |Serialised(a)| == 98 + |a.reserved| + |EntriesBytes(a.entries)|
  {
    hide EntriesBytes, WriteU32be, WriteU16be, PutU16, PutName;
  }

  /** An archive written by the documented layout is read back exactly when every size and count fits its field. */
  lemma DecodeUndoesSerialise(a: Archive)
    ensures Decoding(Serialised(a)) == Ok(a) <==> Fits(a)
  {
    hide Lawful, Writes, File, Whole, Fits, Serialised, EntriesBytes;
    FileLawful();
    FileWrites(a);
    SerialisedRoom(a);
    if Decoding(Serialised(a)) == Ok(a) {
      WholeReadsOnlyWritten(File(), 98, Serialised(a));
    }
    if Fits(a) {
      WritesItself(File(), a);
      WholeLaws(File(), 98, a, Serialised(a), 0, []);
    }
  }

  /** Whatever stands in the ignored bytes the same archive is read; cut it is truncated, and nothing may follow it. */
  lemma IgnoredBytesDoNotMatter(a: Archive, b: Bytes, n: nat, more: Bytes)
    requires Fits(a) && Agreed(Meaning(a), b, Serialised(a))
    ensures Decoding(b) == Ok(a)
    ensures n < |b| ==> Decoding(b[..n]) == Err(Truncated)
    ensures more != [] ==> Decoding(b + more) == Err(TrailingBytes)
  {
    hide Lawful, File, Whole, Fits, Serialised, EntriesBytes, Meaning;
    FileLawful();
    FileWrites(a);
    SerialisedRoom(a);
    WholeLaws(File(), 98, a, b, n, more);
  }

  function EntriesSize(entries: seq<Entry>): nat {
    if entries == [] then 0 else EntrySize(entries[0]) + EntriesSize(entries[1..])
  }

  function EntrySize(e: Entry): nat {
    24 + |PathBlock(e.path)| + |e.reserved| + |e.payload|
  }

  lemma EntryTakes(e: Entry)
    ensures |EntryBytes(e)| == EntrySize(e)
  {
    hide PathBlock, WriteU32be, PutU16, PutU32;
  }

  lemma {:induction false} EntriesTake(entries: seq<Entry>)
    ensures |EntriesBytes(entries)| == EntriesSize(entries)
  {
    hide EntryBytes, EntrySize;
    if entries == [] {
    } else {
      EntryTakes(entries[0]);
      EntriesTake(entries[1..]);
    }
  }

  /**
   * A successful reading accounts for every byte: the sizes add up to the input, which is the archive
   * written out but for ignored bytes.
   */
  lemma SerialiseUndoesDecode(b: Bytes)
    requires Decoding(b).Ok?
    ensures var a := Decoding(b).value;
            && Fits(a)
            && |b| == 98 + |a.reserved| + EntriesSize(a.entries)
            && Agreed(Meaning(a), b, Serialised(a))
            && Decoding(Serialised(a)) == Ok(a)
  {
    hide Lawful, File, Whole, Fits, Serialised, EntriesBytes, EntriesSize, Meaning;
    FileLawful();
    WholeReadsOnlyWritten(File(), 98, b);
    var a := Decoding(b).value;
    FileWrites(a);
    SerialisedRoom(a);
    EntriesTake(a.entries);
    DecodeUndoesSerialise(a);
  }

  /** The document written out, when everything fits: 'harc', then every field, highest byte first, in this order. */
  lemma SerialisedIs(a: Archive)
    requires Fits(a)
    ensures Serialised(a) ==
            [0x68, 0x61, 0x72, 0x63] + WriteU32be(a.version) + WriteU32be(a.size) + Zeros(16)
            + [|a.name|] + a.name + Zeros(63 - |a.name|)
            + WriteU16be(|a.entries|) + WriteU16be(a.autoLaunch) + WriteU16be(|a.reserved|) + a.reserved
            + EntriesBytes(a.entries)
  {
    hide EntriesBytes, WriteU16be, WriteU32be;
    assert a.name[..|a.name|] == a.name;
  }

  lemma EntryIs(e: Entry)
    requires EntryFits(e)
    ensures |PathBlock(e.path)| < 0x1_0000
    ensures EntryBytes(e) ==
            WriteU32be(e.kind) + Zeros(4) + WriteU16be(|PathBlock(e.path)|) + PathBlock(e.path)
            + WriteU16be(|e.reserved|) + e.reserved
            + WriteU32be(e.compression) + WriteU32be(e.decompressed) + WriteU32be(|e.payload|) + e.payload
    ensures PathBlock(e.path) == WriteU16be(|e.path|) + WriteMany(OneComponent(), e.path)
  {
    hide PathBytes, WriteU16be, WriteU32be, Path, OneComponent;
    PathBlockWrites(e.path);
    PathWrites(e.path);
  }
}
