/** The nested archive container: a header, then files each with a path block, reserved bytes and a payload. */
module Archives {
  import opened Endian
  import opened Codec
  import opened Layouts
  import opened FolderItems

  datatype Entry = Entry(
    kind: u32, path: seq<Component>, reserved: Bytes, compression: u32, decompressed: u32, payload: Bytes)

  datatype Archive = Archive(version: u32, size: u32, name: Bytes, autoLaunch: u16, reserved: Bytes,
                             entries: seq<Entry>)

  const HARC: Bytes := [0x68, 0x61, 0x72, 0x63]

  // ------------------------------------------------------------------
  // The layout
  // ------------------------------------------------------------------

  /** What follows the path block: sized reserved bytes, compression, two sizes, the payload. */
  function Tail(): Codec<(Bytes, ((nat, nat), Bytes))> {
    Pair(Blob(U16), Pair(Pair(U32, U32), Blob(U32)))
  }

  function EntryShape(): Codec<(nat, (seq<Component>, (Bytes, ((nat, nat), Bytes))))> {
    Pair(U32, After(Skip(4), Pair(Boxed(U16, Path()), Tail())))
  }

  function ToEntry(p: (nat, (seq<Component>, (Bytes, ((nat, nat), Bytes))))): Entry {
    Entry(Clip32(p.0), p.1.0, p.1.1.0, Clip32(p.1.1.1.0.0), Clip32(p.1.1.1.0.1), p.1.1.1.1)
  }

  function FromEntry(e: Entry): (nat, (seq<Component>, (Bytes, ((nat, nat), Bytes)))) {
    (e.kind, (e.path, (e.reserved, ((e.compression, e.decompressed), e.payload))))
  }

  function OneEntry(): Codec<Entry> {
    Mapped(EntryShape(), p => ToEntry(p), e => FromEntry(e))
  }

  /** What follows a file count: the auto-launch index, sized reserved bytes, that many entries. */
  function Body(count: nat): Codec<((nat, Bytes), seq<Entry>)> {
    Pair(Pair(U16, Blob(U16)), Many(OneEntry(), count))
  }

  function Contents(): Codec<((nat, Bytes), seq<Entry>)> {
    Sized(U16, n => Body(n), (x: ((nat, Bytes), seq<Entry>)) => |x.1|)
  }

  const VERSION := Where(U32, (v: nat) => v == 1, UnsupportedVersion)

  const NAME := PaddedName(64, true)

  function Header(): Codec<((nat, nat), Bytes)> {
    After(Tag(HARC, WrongFormatTag), Pair(Pair(VERSION, U32), After(Skip(16), NAME)))
  }

  function ToArchive(p: (((nat, nat), Bytes), ((nat, Bytes), seq<Entry>))): Archive {
    Archive(Clip32(p.0.0.0), Clip32(p.0.0.1), p.0.1, Clip16(p.1.0.0), p.1.0.1, p.1.1)
  }

  function FromArchive(a: Archive): (((nat, nat), Bytes), ((nat, Bytes), seq<Entry>)) {
    (((a.version, a.size), a.name), ((a.autoLaunch, a.reserved), a.entries))
  }

  function File(): Codec<Archive> {
    Mapped(Pair(Header(), Contents()), p => ToArchive(p), a => FromArchive(a))
  }

  /** Every size and count fits its field. */
  predicate EntryFits(e: Entry) {
    && |e.path| < 0x1_0000 && ShortNames(e.path) && |Path().write(e.path)| < 0x1_0000
    && |e.reserved| < 0x1_0000
    && |e.payload| < 0x1_0000_0000
  }

  predicate Fits(a: Archive) {
    && a.version == 1
    && |a.name| <= 63
    && |a.reserved| < 0x1_0000
    && |a.entries| < 0x1_0000
    && forall i :: 0 <= i < |a.entries| ==> EntryFits(a.entries[i])
  }

  // ------------------------------------------------------------------
  // The layout is lawful
  // ------------------------------------------------------------------

  lemma TailLawful()
    ensures Lawful(Tail())
    ensures forall t :: Tail().fits(t) <==>
              |t.0| < 0x1_0000 && t.1.0.0 < 0x1_0000_0000 && t.1.0.1 < 0x1_0000_0000 && |t.1.1| < 0x1_0000_0000
  {
    hide Lawful, Exact;
    U16Lawful();
    U32Lawful();
    BlobLawful(U16);
    BlobLawful(U32);
    PairLawful(U32, U32);
    PairLawful(Pair(U32, U32), Blob(U32));
    PairLawful(Blob(U16), Pair(Pair(U32, U32), Blob(U32)));
  }

  lemma EntryShapeLawful()
    ensures Lawful(EntryShape())
  {
    hide Lawful, Exact, Path, Tail;
    U16Lawful();
    U32Lawful();
    SkipLawful(4);
    PathLawful();
    BoxedLawful(U16, Path());
    TailLawful();
    var c := Pair(Boxed(U16, Path()), Tail());
    PairLawful(Boxed(U16, Path()), Tail());
    AfterLawful(Skip(4), c);
    PairLawful(U32, After(Skip(4), c));
  }

  lemma EntryShapeFits(p: (nat, (seq<Component>, (Bytes, ((nat, nat), Bytes)))))
    ensures EntryShape().fits(p) <==>
            && p.0 < 0x1_0000_0000
            && |Path().write(p.1.0)| < 0x1_0000 && |p.1.0| < 0x1_0000 && ShortNames(p.1.0)
            && |p.1.1.0| < 0x1_0000 && p.1.1.1.0.0 < 0x1_0000_0000 && p.1.1.1.0.1 < 0x1_0000_0000
            && |p.1.1.1.1| < 0x1_0000_0000
  {
    hide Lawful, Exact, Path, Tail, After;
    PathLawful();
    TailLawful();
    AfterOpens(Skip(4), Pair(Boxed(U16, Path()), Tail()), p.1, []);
    assert Tail().fits(p.1.1) <==>
           |p.1.1.0| < 0x1_0000 && p.1.1.1.0.0 < 0x1_0000_0000 && p.1.1.1.0.1 < 0x1_0000_0000
               && |p.1.1.1.1| < 0x1_0000_0000;
  }

  lemma OneEntryLawful()
    ensures Lawful(OneEntry())
    ensures forall e :: OneEntry().fits(e) <==> EntryFits(e)
  {
    hide Lawful, Exact, EntryShape, Path;
    EntryShapeLawful();
    forall p | EntryShape().fits(p) ensures FromEntry(ToEntry(p)) == p {
      EntryShapeFits(p);
      var q := FromEntry(ToEntry(p));
      assert q.1.1.1.0 == p.1.1.1.0 && q.1.1.1 == p.1.1.1 && q.1.1 == p.1.1 && q.1 == p.1;
    }
    forall e ensures OneEntry().fits(e) <==> EntryFits(e) { EntryShapeFits(FromEntry(e)); }
    MappedLawful(EntryShape(), p => ToEntry(p), e => FromEntry(e));
  }

  lemma BodyLawful(count: nat)
    ensures Lawful(Body(count))
    ensures forall x :: Body(count).fits(x) <==>
              x.0.0 < 0x1_0000 && |x.0.1| < 0x1_0000 && |x.1| == count && AllFit(OneEntry(), x.1)
  {
    hide Lawful, Exact, OneEntry;
    U16Lawful();
    BlobLawful(U16);
    PairLawful(U16, Blob(U16));
    OneEntryLawful();
    ManyLawful(OneEntry(), count);
    PairLawful(Pair(U16, Blob(U16)), Many(OneEntry(), count));
  }

  lemma ContentsLawful()
    ensures Lawful(Contents())
    ensures forall x :: Contents().fits(x) <==>
              x.0.0 < 0x1_0000 && |x.0.1| < 0x1_0000 && |x.1| < 0x1_0000 && AllFit(OneEntry(), x.1)
  {
    hide Lawful, Exact, Body, OneEntry;
    U16Lawful();
    var of := (x: ((nat, Bytes), seq<Entry>)) => |x.1|;
    forall n: nat ensures Lawful(Body(n)) && forall x :: Body(n).fits(x) ==> of(x) == n { BodyLawful(n); }
    SizedLawful(U16, n => Body(n), of);
    forall x ensures Contents().fits(x) <==>
              x.0.0 < 0x1_0000 && |x.0.1| < 0x1_0000 && |x.1| < 0x1_0000 && AllFit(OneEntry(), x.1) {
      BodyLawful(|x.1|);
    }
  }

  lemma HeaderLawful()
    ensures Lawful(Header())
    ensures forall h :: Header().fits(h) <==> h.0.0 == 1 && h.0.1 < 0x1_0000_0000 && |h.1| <= 63
  {
    hide Lawful, Exact;
    U32Lawful();
    WhereLawful(U32, (v: nat) => v == 1, UnsupportedVersion);
    PairLawful(VERSION, U32);
    SkipLawful(16);
    PaddedNameLawful(64, true);
    AfterLawful(Skip(16), NAME);
    var c := Pair(Pair(VERSION, U32), After(Skip(16), NAME));
    PairLawful(Pair(VERSION, U32), After(Skip(16), NAME));
    TagLawful(HARC, WrongFormatTag);
    AfterLawful(Tag(HARC, WrongFormatTag), c);
  }

  lemma FileLawful()
    ensures Lawful(File())
    ensures forall a :: File().fits(a) <==> Fits(a)
  {
    hide Lawful, Exact, Header, Contents, OneEntry, EntryFits;
    HeaderLawful();
    ContentsLawful();
    OneEntryLawful();
    var c := Pair(Header(), Contents());
    PairLawful(Header(), Contents());
    forall p | c.fits(p) ensures FromArchive(ToArchive(p)) == p {
      var q := FromArchive(ToArchive(p));
      assert q.0.0 == p.0.0 && q.0 == p.0 && q.1.0 == p.1.0 && q.1 == p.1;
    }
    MappedLawful(c, p => ToArchive(p), a => FromArchive(a));
  }

  function Decoding(bytes: Bytes): Result<Archive> {
    Whole(File(), 98, bytes)
  }
}
