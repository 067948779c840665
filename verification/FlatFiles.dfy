/** Flat files: a layout with reserved bytes that encoding normalises. */
module FlatFiles {
  import opened Endian
  import opened Codec
  import opened Layouts

  // ------------------------------------------------------------------
  // Flat files
  // ------------------------------------------------------------------

  datatype Fork = Fork(kind: u32, compression: u32, data: Bytes)

  datatype FlatFile = FlatFile(version: u16, forks: seq<Fork>)

  const FILP: Bytes := [0x46, 0x49, 0x4C, 0x50]

  function ForkShape(): Codec<(nat, (nat, Bytes))> {
    Pair(U32, Pair(U32, After(Skip(4), Blob(U32))))
  }

  function ToFork(p: (nat, (nat, Bytes))): Fork {
    Fork(Clip32(p.0), Clip32(p.1.0), p.1.1)
  }

  function FromFork(f: Fork): (nat, (nat, Bytes)) {
    (f.kind, (f.compression, f.data))
  }

  /** Type, compression, four reserved bytes, a 32-bit size, the data. */
  function OneFork(): Codec<Fork> {
    Mapped(ForkShape(), p => ToFork(p), f => FromFork(f))
  }

  function FileShape(): Codec<(nat, seq<Fork>)> {
    After(Tag(FILP, WrongFormatTag), Pair(U16, After(Skip(16), Counted(U16, OneFork()))))
  }

  function ToFile(p: (nat, seq<Fork>)): FlatFile {
    FlatFile(Clip16(p.0), p.1)
  }

  function FromFile(f: FlatFile): (nat, seq<Fork>) {
    (f.version, f.forks)
  }

  /** The format tag, a version, sixteen reserved bytes, a 16-bit count, the forks. */
  function File(): Codec<FlatFile> {
    Mapped(FileShape(), p => ToFile(p), f => FromFile(f))
  }

  predicate SmallForks(forks: seq<Fork>) {
    forall i :: 0 <= i < |forks| ==> |forks[i].data| < 0x1_0000_0000
  }

  lemma OneForkLawful()
    ensures Lawful(OneFork())
    ensures forall f :: OneFork().fits(f) <==> |f.data| < 0x1_0000_0000
  {
    hide Lawful, Exact;
    U32Lawful();
    SkipLawful(4);
    BlobLawful(U32);
    AfterLawful(Skip(4), Blob(U32));
    PairLawful(U32, After(Skip(4), Blob(U32)));
    PairLawful(U32, Pair(U32, After(Skip(4), Blob(U32))));
    assert Inverse(ForkShape(), p => ToFork(p), f => FromFork(f));
    MappedLawful(ForkShape(), p => ToFork(p), f => FromFork(f));
  }

  lemma FileLawful()
    ensures Lawful(File())
    ensures forall f :: File().fits(f) <==> |f.forks| <= MAX_COUNT && SmallForks(f.forks)
  {
    hide Lawful, Exact, OneFork;
    U16Lawful();
    TagLawful(FILP, WrongFormatTag);
    SkipLawful(16);
    OneForkLawful();
    CountedLawful(U16, OneFork());
    var forks := Counted(U16, OneFork());
    AfterLawful(Skip(16), forks);
    PairLawful(U16, After(Skip(16), forks));
    AfterLawful(Tag(FILP, WrongFormatTag), Pair(U16, After(Skip(16), forks)));
    assert Inverse(FileShape(), p => ToFile(p), f => FromFile(f));
    MappedLawful(FileShape(), p => ToFile(p), f => FromFile(f));
  }

  function Encoding(file: FlatFile): Encoded {
    if |file.forks| > MAX_COUNT then Refused(CountTooLarge) else Fine(File().write(file))
  }

  function Decoding(bytes: Bytes): Result<FlatFile> {
    Whole(File(), 24, bytes)
  }

  // ------------------------------------------------------------------
  // The code
  // ------------------------------------------------------------------

  lemma ForkWrites(f: Fork)
    ensures OneFork().write(f) ==
            WriteU32be(f.kind) + WriteU32be(f.compression) + Zeros(4) + WriteU32be(|f.data| % 0x1_0000_0000) + f.data
  {
    hide WriteU32be, Blob, After, U32;
    AfterOpens(Skip(4), Blob(U32), f.data, []);
    BlobOpens(U32, f.data, []);
    U32Writes(f.kind);
    U32Writes(f.compression);
    U32Writes(|f.data|);
  }

  /** What follows a fork's size field. */
  function ForkRead(kind: u32, compression: u32, size: nat, s: Bytes): Result<(Fork, Bytes)> {
    if |s| < size then Err(Truncated) else Ok((Fork(kind, compression, s[..size]), s[size..]))
  }

  lemma ForkReads(s: Bytes)
    ensures |s| < 16 ==> OneFork().read(s) == Err(Truncated)
    ensures |s| >= 16 ==> OneFork().read(s) == ForkRead(ReadU32be(s), ReadU32be(s[4..]), ReadU32be(s[12..]), s[16..])
  {
    hide ReadU32be, Blob, After;
    if |s| >= 8 {
      assert s[4..][4..] == s[8..];
      AfterOpens(Skip(4), Blob(U32), [], s[8..]);
      if |s| >= 12 {
        assert s[8..][4..] == s[12..];
        BlobOpens(U32, [], s[12..]);
        if |s| >= 16 {
          assert s[12..][4..] == s[16..];
        }
      }
    }
  }

  function Forks(): Codec<seq<Fork>> {
    After(Skip(16), Counted(U16, OneFork()))
  }

  lemma FileWrites(f: FlatFile)
    ensures File().write(f) ==
            FILP + WriteU16be(f.version) + Zeros(16) + WriteU16be(|f.forks| % 0x1_0000) + WriteMany(OneFork(), f.forks)
  {
    hide WriteU16be, OneFork, After, Counted, U16;
    AfterOpens(Skip(16), Counted(U16, OneFork()), f.forks, []);
    AfterOpens(Tag(FILP, WrongFormatTag), Pair(U16, Forks()), FromFile(f), []);
    CountedOpens(U16, OneFork(), f.forks, []);
    U16Writes(f.version);
    U16Writes(|f.forks|);
  }

  lemma ForksRead(s: Bytes)
    requires |s| >= 18
    ensures Forks().read(s) == ReadMany(OneFork(), ReadU16be(s[16..]), s[18..])
  {
    hide ReadU16be, OneFork, After, Counted;
    AfterOpens(Skip(16), Counted(U16, OneFork()), [], s);
    assert s[16..][2..] == s[18..];
    CountedOpens(U16, OneFork(), [], s[16..]);
  }

  /** The file, once its forks are read. */
  function FileRead(tag: Bytes, version: u16, forks: Result<seq<Fork>>): Result<FlatFile> {
    if tag != FILP then Err(WrongFormatTag)
    else if forks.Err? then Err(forks.error)
    else Ok(FlatFile(version, forks.value))
  }

  lemma FileReads(s: Bytes)
    requires |s| >= 24
    ensures Decoding(s) == FileRead(s[..4], ReadU16be(s[4..]), Ended(ReadMany(OneFork(), ReadU16be(s[22..]), s[24..])))
  {
    hide ReadU16be, OneFork, After, Forks;
    AfterOpens(Tag(FILP, WrongFormatTag), Pair(U16, Forks()), (0, []), s);
    FileShapeIs();
    assert s[4..][2..] == s[6..] && s[6..][16..] == s[22..] && s[6..][18..] == s[24..];
    ForksRead(s[6..]);
  }

  lemma FileShapeIs()
    ensures FileShape() == After(Tag(FILP, WrongFormatTag), Pair(U16, Forks()))
  {
  }

  lemma ForksGrow(forks: seq<Fork>, i: nat)
    requires i < |forks|
    ensures var f := forks[i];
            WriteMany(OneFork(), forks[..i + 1]) ==
            WriteMany(OneFork(), forks[..i])
            + (WriteU32be(f.kind) + WriteU32be(f.compression) + Zeros(4) + WriteU32be(|f.data| % 0x1_0000_0000)
               + f.data)
  {
    hide OneFork, WriteU32be;
    ForkWrites(forks[i]);
    WriteManyAppend(OneFork(), forks[..i], forks[i]);
    assert forks[..i + 1] == forks[..i] + [forks[i]];
  }

  method Encode(file: FlatFile) returns (r: Encoded)
    ensures r == Encoding(file)
    ensures |file.forks| > 65535 ==> r == Refused(CountTooLarge)
  {
    hide OneFork, File, WriteU32be, WriteU16be;
    if |file.forks| > MAX_COUNT {
      return Refused(CountTooLarge);
    }
    var out := FILP + WriteU16be(file.version) + Zeros(16) + WriteU16be(|file.forks|);
    ghost var header := out;
    var i := 0;
    while i < |file.forks|
      invariant 0 <= i <= |file.forks|
      invariant out == header + WriteMany(OneFork(), file.forks[..i])
    {
      var fork := file.forks[i];
      out := out + (WriteU32be(fork.kind) + WriteU32be(fork.compression) + Zeros(4)
                    + WriteU32be(|fork.data| % 0x1_0000_0000) + fork.data);
      ForksGrow(file.forks, i);
      i := i + 1;
    }
    assert file.forks[..i] == file.forks;
    FileWrites(file);
    r := Fine(out);
  }

  method Decode(bytes: Bytes) returns (r: Result<FlatFile>)
    ensures r == Decoding(bytes)
    ensures |bytes| >= 24 && bytes[..4] != [0x46, 0x49, 0x4C, 0x50] ==> r == Err(WrongFormatTag)
  {
    hide OneFork, File, ReadU32be, ReadU16be;
    if |bytes| < 24 {
      return Err(Truncated);
    }
    FileReads(bytes);
    hide Decoding;
    if bytes[..4] != FILP {
      return Err(WrongFormatTag);
    }
    var version, count := ReadU16be(bytes[4..]), ReadU16be(bytes[22..]);
    var rest := bytes[24..];
    var forks: seq<Fork> := [];
    var i := 0;
    ExtendNothing(ReadMany(OneFork(), count, rest));
    while i < count
      invariant 0 <= i <= count
      invariant ReadMany(OneFork(), count, bytes[24..]) == Extend(forks, ReadMany(OneFork(), count - i, rest))
    {
      ReadManyStep(OneFork(), count - i, forks, rest);
      ForkReads(rest);
      if |rest| < 16 {
        return Err(Truncated);
      }
      var kind, compression, size := ReadU32be(rest), ReadU32be(rest[4..]), ReadU32be(rest[12..]);
      rest := rest[16..];
      if |rest| < size {
        return Err(Truncated);
      }
      forks := forks + [Fork(kind, compression, rest[..size])];
      rest := rest[size..];
      i := i + 1;
    }
    ReadManyDone(OneFork(), forks, rest);
    if rest != [] {
      return Err(TrailingBytes);
    }
    r := Ok(FlatFile(version, forks));
  }

  // ------------------------------------------------------------------
  // What survives
  // ------------------------------------------------------------------

  function ForkMeaning(f: Fork): seq<Care> {
    Kept(8) + Ignored(4) + Kept(4) + Kept(|f.data|)
  }

  function ForksMeaning(forks: seq<Fork>): seq<Care> {
    if forks == [] then [] else ForkMeaning(forks[0]) + ForksMeaning(forks[1..])
  }

  /** Every byte of a flat file but sixteen in its header and four in each fork header. */
  function Meaning(f: FlatFile): seq<Care> {
    Kept(6) + Ignored(16) + Kept(2) + ForksMeaning(f.forks)
  }

  lemma {:induction false} ForksCares(forks: seq<Fork>)
    ensures CareMany(OneFork(), forks) == ForksMeaning(forks)
  {
    if forks == [] {
    } else {
      hide OneFork;
      ForkCares(forks[0]);
      ForksCares(forks[1..]);
    }
  }

  lemma ForkCares(f: Fork)
    ensures OneFork().cares(f) == ForkMeaning(f)
  {
  }

  lemma FileCares(f: FlatFile)
    ensures File().cares(f) == Meaning(f)
  {
    hide OneFork;
    ForksCares(f.forks);
  }

  /** An encoded file comes back exactly when every fork is smaller than 2^32 bytes, the width of its size field. */
  lemma DecodeUndoesEncode(file: FlatFile)
    requires Encoding(file).Fine?
    ensures Decoding(Encoding(file).bytes) == Ok(file) <==> SmallForks(file.forks)
  {
    hide Lawful, Writes, File, Whole;
    FileLawful();
    if Decoding(Encoding(file).bytes) == Ok(file) {
      WholeReadsOnlyWritten(File(), 24, Encoding(file).bytes);
    }
    if SmallForks(file.forks) {
      WritesItself(File(), file);
      FileWrites(file);
      WholeLaws(File(), 24, file, File().write(file), 0, []);
    }
  }

  /** Whatever stands in the reserved bytes, the same file is read; cut it is truncated, and nothing may follow it. */
  lemma ReservedBytesAreIgnored(file: FlatFile, b: Bytes, n: nat, more: Bytes)
    requires Encoding(file).Fine? && SmallForks(file.forks) && Agreed(Meaning(file), b, Encoding(file).bytes)
    ensures Decoding(b) == Ok(file)
    ensures n < |b| ==> Decoding(b[..n]) == Err(Truncated)
    ensures more != [] ==> Decoding(b + more) == Err(TrailingBytes)
  {
    hide Lawful, File, Whole, Agreed;
    FileLawful();
    FileCares(file);
    FileWrites(file);
    AgreedSizes(Meaning(file), b, Encoding(file).bytes);
    WholeLaws(File(), 24, file, b, n, more);
  }

  lemma AgreedSizes(cares: seq<Care>, a: Bytes, b: Bytes)
    requires Agreed(cares, a, b)
    ensures |a| == |b| == |cares|
  {
  }

  /** Encoding what was decoded changes reserved bytes only, and is read as the same file. */
  lemma EncodeUndoesDecode(b: Bytes)
    requires Decoding(b).Ok?
    ensures var file := Decoding(b).value;
            && Encoding(file).Fine? && Agreed(Meaning(file), b, Encoding(file).bytes)
            && Decoding(Encoding(file).bytes) == Ok(file)
  {
    hide Lawful, File, Whole, Agreed;
    FileLawful();
    WholeReadsOnlyWritten(File(), 24, b);
    var file := Decoding(b).value;
    FileCares(file);
    DecodeUndoesEncode(file);
  }

  /** The encoding written out: 'FILP', the version, 16 zeros, the count, the forks. */
  lemma EncodingIs(file: FlatFile)
    requires Encoding(file).Fine?
    ensures Encoding(file).bytes ==
            [0x46, 0x49, 0x4C, 0x50] + WriteU16be(file.version) + Zeros(16) + WriteU16be(|file.forks|)
            + WriteMany(OneFork(), file.forks)
  {
    hide File, OneFork, WriteU16be;
    FileWrites(file);
  }
}
