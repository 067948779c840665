/** Folder paths and folder download items. */
module FolderItems {
  import opened Endian
  import opened Codec
  import opened Layouts

  // ------------------------------------------------------------------
  // Folder paths
  // ------------------------------------------------------------------

  datatype Component = Component(script: u16, name: Bytes)

  function ToComponent(p: (nat, Bytes)): Component {
    Component(Clip16(p.0), p.1)
  }

  function OneComponent(): Codec<Component> {
    Mapped(Pair(U16, Blob(U8)), p => ToComponent(p), (c: Component) => (c.script, c.name))
  }

  /** A 16-bit count, then that many components, each a script, a length byte and a name. */
  function Path(): Codec<seq<Component>> {
    Counted(U16, OneComponent())
  }

  predicate ShortNames(path: seq<Component>) {
    forall i :: 0 <= i < |path| ==> |path[i].name| <= 255
  }

  lemma OneComponentLawful()
    ensures Lawful(OneComponent()) && Exact(OneComponent())
    ensures forall c :: OneComponent().fits(c) <==> |c.name| <= 255
  {
    hide Lawful, Exact;
    U8Lawful();
    U16Lawful();
    BlobLawful(U8);
    PairLawful(U16, Blob(U8));
    var to, from := (p: (nat, Bytes)) => ToComponent(p), (c: Component) => (c.script as nat, c.name);
    assert Inverse(Pair(U16, Blob(U8)), to, from);
    MappedLawful(Pair(U16, Blob(U8)), to, from);
  }

  lemma PathLawful()
    ensures Lawful(Path()) && Exact(Path())
    ensures forall path :: Path().fits(path) <==> |path| < 0x1_0000 && ShortNames(path)
  {
    hide Lawful, Exact, OneComponent;
    U16Lawful();
    OneComponentLawful();
    CountedLawful(U16, OneComponent());
  }

  lemma ComponentOpens(c: Component, s: Bytes)
    ensures |c.name| <= 255 ==> OneComponent().write(c) == WriteU16be(c.script) + [|c.name|] + c.name
    ensures |s| < 3 ==> OneComponent().read(s) == Err(Truncated)
    ensures |s| >= 3 ==>
              OneComponent().read(s) == if |s[3..]| < s[2] then Err(Truncated)
                                        else Ok((Component(ReadU16be(s), s[3..][..s[2]]), s[3..][s[2]..]))
  {
    hide ReadU16be, WriteU16be, Blob;
    BlobOpens(U8, c.name, []);
    if |s| >= 2 {
      BlobOpens(U8, [], s[2..]);
    }
    if |s| >= 3 {
      assert s[2..][1..] == s[3..];
    }
  }

  /** Every component takes at least three bytes, so a path whose bytes fit a 16-bit size has a 16-bit count. */
  lemma {:induction false} PathTakesRoom(path: seq<Component>)
    ensures |WriteMany(OneComponent(), path)| >= 3 * |path|
  {
    hide OneComponent;
    if path == [] {
    } else {
      PathTakesRoom(path[1..]);
      ComponentTakesRoom(path[0]);
    }
  }

  lemma ComponentTakesRoom(c: Component)
    ensures |OneComponent().write(c)| >= 3
  {
    hide Blob;
    BlobOpens(U8, c.name, []);
  }

  // ------------------------------------------------------------------
  // Folder download items
  // ------------------------------------------------------------------

  datatype FolderItem = FolderItem(folder: bool, path: seq<Component>)

  const ITEM_SIZE := Where(U16, (n: nat) => n >= 4, Truncated)

  function ItemBody(): Codec<FolderItem> {
    Mapped(Pair(FLAG, Path()), (p: (bool, seq<Component>)) => FolderItem(p.0, p.1),
           (i: FolderItem) => (i.folder, i.path))
  }

  lemma ItemBodyLawful()
    ensures Lawful(ItemBody()) && Lawful(ITEM_SIZE)
    ensures forall i :: ItemBody().fits(i) <==> |i.path| < 0x1_0000 && ShortNames(i.path)
  {
    hide Lawful, Exact, Path;
    FlagLawful();
    PathLawful();
    U16Lawful();
    WhereLawful(U16, (n: nat) => n >= 4, Truncated);
    PairLawful(FLAG, Path());
    var to, from := (p: (bool, seq<Component>)) => FolderItem(p.0, p.1), (i: FolderItem) => (i.folder, i.path);
    assert Inverse(Pair(FLAG, Path()), to, from);
    MappedLawful(Pair(FLAG, Path()), to, from);
  }

  lemma ItemOpens(i: FolderItem)
    ensures ItemBody().write(i) ==
            [0, if i.folder then 1 else 0] + WriteU16be(|i.path| % 0x1_0000) + WriteMany(OneComponent(), i.path)
  {
    hide Path, OneComponent, WriteU16be;
    CountedOpens(U16, OneComponent(), i.path, []);
    assert Path().write(i.path) == WriteU16be(|i.path| % 0x1_0000) + WriteMany(OneComponent(), i.path) by {
      hide Counted;
      PathIs();
    }
  }

  lemma PathIs()
    ensures Path() == Counted(U16, OneComponent())
  {
  }

  function ItemEncoding(item: FolderItem): Encoded {
    if !ShortNames(item.path) then Refused(StringTooLong)
    else if |ItemBody().write(item)| > MAX_SIZE then Refused(ElementTooLarge)
    else Fine(FramedWrite([], ITEM_SIZE, ItemBody(), item))
  }

  function ItemDecoding(bytes: Bytes): Result<FolderItem> {
    Framed([], ITEM_SIZE, ItemBody(), 2, bytes)
  }

  lemma PathGrows(path: seq<Component>, i: nat)
    requires i < |path| && |path[i].name| <= 255
    ensures WriteMany(OneComponent(), path[..i + 1]) ==
            WriteMany(OneComponent(), path[..i]) + (WriteU16be(path[i].script) + [|path[i].name|] + path[i].name)
  {
    hide OneComponent, WriteU16be;
    ComponentOpens(path[i], []);
    WriteManyAppend(OneComponent(), path[..i], path[i]);
    assert path[..i + 1] == path[..i] + [path[i]];
  }

  method EncodeItem(item: FolderItem) returns (r: Encoded)
    ensures r == ItemEncoding(item)
    ensures (exists c :: c in item.path && |c.name| > 255) ==> r == Refused(StringTooLong)
  {
    hide OneComponent, ItemBody, WriteU16be;
    var path: Bytes := [];
    var i := 0;
    while i < |item.path|
      invariant 0 <= i <= |item.path|
      invariant forall k :: 0 <= k < i ==> |item.path[k].name| <= 255
      invariant path == WriteMany(OneComponent(), item.path[..i])
    {
      var component := item.path[i];
      if |component.name| > 255 {
        return Refused(StringTooLong);
      }
      path := path + (WriteU16be(component.script) + [|component.name|] + component.name);
      PathGrows(item.path, i);
      i := i + 1;
    }
    assert item.path[..i] == item.path;
    var size := 4 + |path|;
    ItemOpens(item);
    if size > MAX_SIZE {
      return Refused(ElementTooLarge);
    }
    var out := WriteU16be(size) + [0, if item.folder then 1 else 0] + WriteU16be(|item.path| % 0x1_0000) + path;
    assert out == [] + (WriteU16be(size) + ItemBody().write(item));
    r := Fine(out);
  }

  /** The components of a path that must fill its bytes. */
  method DecodePath(count: nat, bytes: Bytes) returns (r: Result<seq<Component>>)
    ensures r == Ended(ReadMany(OneComponent(), count, bytes))
  {
    hide OneComponent, ReadU16be;
    var rest := bytes;
    var path: seq<Component> := [];
    var i := 0;
    ExtendNothing(ReadMany(OneComponent(), count, bytes));
    while i < count
      invariant 0 <= i <= count
      invariant ReadMany(OneComponent(), count, bytes) == Extend(path, ReadMany(OneComponent(), count - i, rest))
    {
      ReadManyStep(OneComponent(), count - i, path, rest);
      ComponentOpens(Component(0, []), rest);
      if |rest| < 3 {
        return Err(Truncated);
      }
      var script, size := ReadU16be(rest), rest[2];
      rest := rest[3..];
      if |rest| < size {
        return Err(Truncated);
      }
      path := path + [Component(script, rest[..size])];
      rest := rest[size..];
      i := i + 1;
    }
    ReadManyDone(OneComponent(), path, rest);
    if rest != [] {
      return Err(TrailingBytes);
    }
    r := Ok(path);
  }

  lemma ItemReads(block: Bytes)
    requires |block| >= 4
    ensures var r := Ended(ReadMany(OneComponent(), ReadU16be(block[2..]), block[4..]));
            Whole(ItemBody(), 0, block) ==
            if r.Err? then Err(r.error) else Ok(FolderItem(ReadU16be(block) % 2 == 1, r.value))
  {
    hide OneComponent, Counted;
    CountedOpens(U16, OneComponent(), [], block[2..]);
    assert block[2..][2..] == block[4..];
  }

  method DecodeItem(bytes: Bytes) returns (r: Result<FolderItem>)
    ensures r == ItemDecoding(bytes)
  {
    hide OneComponent, ItemBody, ReadU16be, Framed;
    FramedOpens([], ITEM_SIZE, ItemBody(), 2, bytes);
    assert bytes[0..] == bytes;
    if |bytes| < 2 {
      return Err(Truncated);
    }
    var size: int := ReadU16be(bytes);
    if size < 4 {
      return Err(Truncated);
    }
    if |bytes| < 2 + size {
      return Err(Truncated);
    }
    if |bytes| > 2 + size {
      return Err(TrailingBytes);
    }
    ItemReads(bytes[2..]);
    assert bytes[2..][2..] == bytes[4..] && bytes[2..][4..] == bytes[6..];
    var folder := ReadU16be(bytes[2..]) % 2 == 1;
    var path := DecodePath(ReadU16be(bytes[4..]), bytes[6..]);
    if path.Err? {
      return Err(path.error);
    }
    r := Ok(FolderItem(folder, path.value));
  }

  /** Every item that encodes comes back, cut anywhere it is truncated, and nothing may follow it. */
  lemma DecodeItemUndoesEncode(item: FolderItem, n: nat, more: Bytes)
    requires ItemEncoding(item).Fine?
    ensures |item.path| < 0x1_0000
    ensures var b := ItemEncoding(item).bytes;
            && ItemDecoding(b) == Ok(item)
            && (n < |b| ==> ItemDecoding(b[..n]) == Err(Truncated))
            && (more != [] ==> ItemDecoding(b + more) == Err(TrailingBytes))
  {
    hide Lawful, Writes, ItemBody, OneComponent, Framed;
    ItemBodyLawful();
    PathTakesRoom(item.path);
    ItemOpens(item);
    BoxedLawful(ITEM_SIZE, ItemBody());
    var s := Boxed(ITEM_SIZE, ItemBody()).write(item);
    WritesItself(Boxed(ITEM_SIZE, ItemBody()), item);
    assert [] + s == s;
    FramedLaws([], ITEM_SIZE, ItemBody(), 2, item, s, n, more);
  }

  lemma ItemCares(item: FolderItem)
    ensures Boxed(ITEM_SIZE, ItemBody()).cares(item) == Kept(2) + [Nothing, LowBit] + Kept(|Path().write(item.path)|)
  {
    hide Path, Lawful;
    PathLawful();
  }

  lemma ItemAgrees(item: FolderItem, b: Bytes)
    requires Writes(Boxed(ITEM_SIZE, ItemBody()), item, b)
    ensures var w := Boxed(ITEM_SIZE, ItemBody()).write(item);
            |b| == |w| >= 4 && b[3] % 2 == w[3] % 2 && forall i :: 0 <= i < |b| && i != 2 && i != 3 ==> b[i] == w[i]
  {
    hide Boxed, ItemBody;
    var cares, w := Boxed(ITEM_SIZE, ItemBody()).cares(item), Boxed(ITEM_SIZE, ItemBody()).write(item);
    ItemCares(item);
    assert Agrees(cares[3], b[3], w[3]);
    forall i | 0 <= i < |b| && i != 2 && i != 3 ensures b[i] == w[i] { assert Agrees(cares[i], b[i], w[i]); }
  }

  /** Encoding what was decoded gives back the same bytes, but for the fifteen unused bits of the type. */
  lemma EncodeItemUndoesDecode(b: Bytes)
    requires ItemDecoding(b).Ok?
    ensures var again := ItemEncoding(ItemDecoding(b).value);
            && again.Fine? && |again.bytes| == |b| >= 4
            && again.bytes[2] == 0 && again.bytes[3] == b[3] % 2
            && (forall i :: 0 <= i < |b| && i != 2 && i != 3 ==> again.bytes[i] == b[i])
            && ItemDecoding(again.bytes) == ItemDecoding(b)
  {
    hide Lawful, Writes, Boxed, ItemBody, ItemEncoding, Framed, OneComponent;
    ItemBodyLawful();
    FramedReadsOnlyWritten([], ITEM_SIZE, ItemBody(), 2, b);
    var item := ItemDecoding(b).value;
    assert b[0..] == b;
    ItemAgrees(item, b);
    BoxedItem(item);
    DecodeItemUndoesEncode(item, 0, []);
  }

  /** The encoding of an item that fits, and the two bytes of its type. */
  lemma BoxedItem(item: FolderItem)
    requires Boxed(ITEM_SIZE, ItemBody()).fits(item)
    ensures var w := Boxed(ITEM_SIZE, ItemBody()).write(item);
            ItemEncoding(item) == Fine(w) && |w| >= 4 && w[2] == 0 && w[3] == if item.folder then 1 else 0
  {
    hide ItemBody, OneComponent, WriteU16be, Lawful;
    ItemBodyLawful();
    ItemOpens(item);
    var w := Boxed(ITEM_SIZE, ItemBody()).write(item);
    assert w[2..] == ItemBody().write(item);
    assert w[2] == w[2..][0] && w[3] == w[2..][1];
    assert [] + w == w;
  }

  /** The encoding written out: the size of what follows, the type, the count, the components. */
  lemma EncodingIs(item: FolderItem)
    requires ItemEncoding(item).Fine?
    ensures var path := WriteMany(OneComponent(), item.path);
            && 4 + |path| <= 0xFFFF && |item.path| <= 0xFFFF
            && ItemEncoding(item).bytes ==
               WriteU16be(4 + |path|) + [0x00, if item.folder then 0x01 else 0x00] + WriteU16be(|item.path|) + path
    ensures forall c :: c in item.path ==>
              |c.name| <= 255 && OneComponent().write(c) == WriteU16be(c.script) + [|c.name|] + c.name
  {
    hide OneComponent, ItemBody, WriteU16be;
    ItemOpens(item);
    PathTakesRoom(item.path);
    forall c | c in item.path
      ensures |c.name| <= 255 && OneComponent().write(c) == WriteU16be(c.script) + [|c.name|] + c.name
    {
      ComponentOpens(c, []);
    }
  }
}
