/** The flattened ID-variable array: a table of ids and offsets, then the data they slice. */
module IvarArray {
  import opened Endian

  datatype Error = Truncated | WrongFormatTag | ImpossibleItemCount | OffsetOutOfRange

  datatype Item = Item(id: u32, data: Bytes)

  datatype Catalog = Catalog(encoding: u32, items: seq<Item>)

  datatype Result<+T> = Ok(value: T) | Err(error: Error)

  const IVA1: Bytes := [0x49, 0x56, 0x41, 0x31]

  // ------------------------------------------------------------------
  // The table
  // ------------------------------------------------------------------

  function IdAt(table: Bytes, i: nat): u32
    requires 8 * i + 8 <= |table|
  {
    ReadU32be(table[8 * i..])
  }

  function OffsetAt(table: Bytes, i: nat): u32
    requires 8 * i + 8 <= |table|
  {
    ReadU32be(table[8 * i + 4..])
  }

  /** The first `n` offsets never step back and never leave the data. */
  ghost predicate Tiles(table: Bytes, n: nat, size: nat)
    requires 8 * n <= |table|
  {
    && (forall i :: 0 <= i < n ==> OffsetAt(table, i) <= size)
    && (forall i, j :: 0 <= i < j < n ==> OffsetAt(table, i) <= OffsetAt(table, j))
  }

  /** The table rows and the bytes between their offsets. */
  function Items(table: Bytes, n: nat, data: Bytes): (items: seq<Item>)
    requires 8 * (n + 1) <= |table| && Tiles(table, n + 1, |data|)
    ensures |items| == n
  {
    seq(n, i requires 0 <= i < n => Item(IdAt(table, i), data[OffsetAt(table, i)..OffsetAt(table, i + 1)]))
  }

  // ------------------------------------------------------------------
  // Decoding
  // ------------------------------------------------------------------

  function Count(bytes: Bytes): nat
    requires |bytes| >= 24
  {
    ReadU32be(bytes[12..])
  }

  /** Where the table ends and the data begins: there is one row more than there are items. */
  function TableEnd(bytes: Bytes): (end: nat)
    requires |bytes| >= 24
    ensures end == 16 + (Count(bytes) + 1) * 8
  {
    16 + (Count(bytes) + 1) * 8
  }

  ghost function Decoding(bytes: Bytes): Result<Catalog> {
    if |bytes| < 24 then Err(Truncated)
    else if bytes[..4] != IVA1 then Err(WrongFormatTag)
    else if Count(bytes) >= 0x100_0000 then Err(ImpossibleItemCount)
    else if |bytes| < TableEnd(bytes) then Err(Truncated)
    else
      var table, data := bytes[16..TableEnd(bytes)], bytes[TableEnd(bytes)..];
      if !Tiles(table, Count(bytes) + 1, |data|) then Err(OffsetOutOfRange)
      else Ok(Catalog(ReadU32be(bytes[8..]), Items(table, Count(bytes), data)))
  }

  /** The first pass: every offset at least the one before it and inside the data. */
  method CheckOffsets(table: Bytes, count: nat, size: nat) returns (ok: bool, offsets: seq<u32>)
    requires |table| == 8 * (count + 1)
    ensures ok <==> Tiles(table, count + 1, size)
    ensures ok ==> |offsets| == count + 1 && forall i :: 0 <= i <= count ==> offsets[i] == OffsetAt(table, i)
  {
    hide ReadU32be;
    var previous: u32 := 0;
    offsets := [];
    var i := 0;
    while i <= count
      invariant 0 <= i <= count + 1
      invariant Tiles(table, i, size)
      invariant i == 0 ==> previous == 0
      invariant i > 0 ==> previous == OffsetAt(table, i - 1)
      invariant |offsets| == i && forall k :: 0 <= k < i ==> offsets[k] == OffsetAt(table, k)
    {
      var offset := ReadU32be(table[8 * i + 4..]);
      assert offset == OffsetAt(table, i);
      if offset < previous || offset > size {
        return false, offsets;
      }
      previous := offset;
      offsets := offsets + [offset];
      i := i + 1;
    }
    ok := true;
  }

  method Decode(bytes: Bytes) returns (r: Result<Catalog>)
    ensures r == Decoding(bytes)
  {
    hide ReadU32be, Tiles;
    if |bytes| < 24 {
      return Err(Truncated);
    }
    if bytes[..4] != IVA1 {
      return Err(WrongFormatTag);
    }
    var count: nat := ReadU32be(bytes[12..]);
    if count / 0x100_0000 != 0 {
      return Err(ImpossibleItemCount);
    }
    var end := 16 + (count + 1) * 8;
    if |bytes| < end {
      return Err(Truncated);
    }
    var table, data := bytes[16..end], bytes[end..];
    var ok, offsets := CheckOffsets(table, count, |data|);
    if !ok {
      return Err(OffsetOutOfRange);
    }
    var items := Slice(table, count, data, offsets);
    r := Ok(Catalog(ReadU32be(bytes[8..]), items));
  }

  /** The second pass: the items, in table order. */
  method Slice(table: Bytes, count: nat, data: Bytes, offsets: seq<u32>) returns (items: seq<Item>)
    requires |table| == 8 * (count + 1) && Tiles(table, count + 1, |data|)
    requires |offsets| == count + 1 && forall i :: 0 <= i <= count ==> offsets[i] == OffsetAt(table, i)
    ensures items == Items(table, count, data)
  {
    hide ReadU32be;
    items := [];
    var i := 0;
    while i < count
      invariant 0 <= i <= count && |items| == i
      invariant forall k :: 0 <= k < i ==> items[k] == Items(table, count, data)[k]
    {
      var id := ReadU32be(table[8 * i..]);
      var begin, end: int := offsets[i], offsets[i + 1];
      assert OffsetAt(table, i) <= OffsetAt(table, i + 1) <= |data|;
      items := items + [Item(id, data[begin..end])];
      i := i + 1;
    }
  }

  method Find(catalog: Catalog, id: u32) returns (found: bool, at: nat)
    ensures found ==> at < |catalog.items| && catalog.items[at].id == id
    ensures found ==> forall k :: 0 <= k < at ==> catalog.items[k].id != id
    ensures !found ==> forall k :: 0 <= k < |catalog.items| ==> catalog.items[k].id != id
  {
    at := 0;
    while at < |catalog.items|
      invariant 0 <= at <= |catalog.items|
      invariant forall k :: 0 <= k < at ==> catalog.items[k].id != id
    {
      if catalog.items[at].id == id {
        return true, at;
      }
      at := at + 1;
    }
    found := false;
  }

  // ------------------------------------------------------------------
  // The items tile the data
  // ------------------------------------------------------------------

  function Joined(items: seq<Item>): Bytes {
    if items == [] then [] else Joined(items[..|items| - 1]) + items[|items| - 1].data
  }

  lemma {:induction false} ItemsTile(table: Bytes, n: nat, count: nat, data: Bytes)
    requires n <= count && 8 * (count + 1) <= |table| && Tiles(table, count + 1, |data|)
    ensures OffsetAt(table, 0) <= OffsetAt(table, n) <= |data|
    ensures Joined(Items(table, count, data)[..n]) == data[OffsetAt(table, 0)..OffsetAt(table, n)]
  {
    hide OffsetAt, IdAt;
    if n == 0 {
    } else {
      ItemsTile(table, n - 1, count, data);
      var items := Items(table, count, data)[..n];
      assert items[..n - 1] == Items(table, count, data)[..n - 1];
      assert items[n - 1].data == data[OffsetAt(table, n - 1)..OffsetAt(table, n)];
    }
  }

  /**
   * Put together in table order the items are one stretch of the data, from the first offset to the last:
   * no gap, no overlap.
   */
  lemma DecodedItemsTile(bytes: Bytes)
    requires Decoding(bytes).Ok?
    ensures TableEnd(bytes) <= |bytes| && |Decoding(bytes).value.items| == Count(bytes)
    ensures var table, data := bytes[16..TableEnd(bytes)], bytes[TableEnd(bytes)..];
            && OffsetAt(table, 0) <= OffsetAt(table, Count(bytes)) <= |data|
            && Joined(Decoding(bytes).value.items) == data[OffsetAt(table, 0)..OffsetAt(table, Count(bytes))]
  {
    hide ReadU32be, OffsetAt, IdAt, Tiles, Count;
    ItemsTile(bytes[16..TableEnd(bytes)], Count(bytes), Count(bytes), bytes[TableEnd(bytes)..]);
    var items := Decoding(bytes).value.items;
    assert items[..Count(bytes)] == items;
  }

  lemma ItemsIgnoreSlack(table: Bytes, n: nat, data: Bytes, more: Bytes)
    requires 8 * (n + 1) <= |table| && Tiles(table, n + 1, |data|)
    ensures Tiles(table, n + 1, |data + more|) && Items(table, n, data + more) == Items(table, n, data)
  {
    hide OffsetAt, IdAt;
    forall i | 0 <= i < n ensures Items(table, n, data + more)[i] == Items(table, n, data)[i] {
      var begin, end := OffsetAt(table, i), OffsetAt(table, i + 1);
      assert (data + more)[begin..end] == data[begin..end];
    }
  }

  /** What lies behind the last offset is not looked at. */
  lemma SlackIsIgnored(bytes: Bytes, more: Bytes)
    requires Decoding(bytes).Ok?
    ensures Decoding(bytes + more) == Decoding(bytes)
  {
    hide ReadU32be, OffsetAt, IdAt, Tiles, Items;
    var whole, end := bytes + more, TableEnd(bytes);
    assert whole[..4] == bytes[..4];
    SameWord(bytes, more, 8);
    SameWord(bytes, more, 12);
    assert whole[16..end] == bytes[16..end] && whole[end..] == bytes[end..] + more;
    ItemsIgnoreSlack(bytes[16..end], Count(bytes), bytes[end..], more);
  }

  lemma SameWord(bytes: Bytes, more: Bytes, at: nat)
    requires at + 4 <= |bytes|
    ensures ReadU32be((bytes + more)[at..]) == ReadU32be(bytes[at..])
  {
    assert (bytes + more)[at..][..2] == bytes[at..][..2] && (bytes + more)[at..][2..4] == bytes[at..][2..4];
  }

  // ------------------------------------------------------------------
  // The same by position
  // ------------------------------------------------------------------

  /** The number in the four bytes at a place. */
  function NumberAt(bytes: Bytes, at: nat): nat
    requires at + 4 <= |bytes|
  {
    BigEndian(bytes[at..at + 4])
  }

  /** The offset in row `i` of the table. */
  function OffsetNumber(bytes: Bytes, i: nat): nat
    requires 24 + 8 * i <= |bytes|
  {
    NumberAt(bytes, 20 + 8 * i)
  }

  lemma WordIsNumber(bytes: Bytes, at: nat)
    requires at + 4 <= |bytes|
    ensures ReadU32be(bytes[at..]) == NumberAt(bytes, at)
  {
    hide BigEndian;
    BigEndianOfFour(bytes[at..at + 4]);
    var s, b := bytes[at..], bytes[at..at + 4];
    assert s[0] == b[0] && s[1] == b[1] && s[2] == b[2] && s[3] == b[3];
  }

  /** Row `i` of the table: its id, and behind it its offset. */
  lemma RowIsAt(bytes: Bytes, i: nat)
    requires |bytes| >= 24 && |bytes| >= TableEnd(bytes) && i <= Count(bytes)
    ensures var table := bytes[16..TableEnd(bytes)];
            && IdAt(table, i) == NumberAt(bytes, 16 + 8 * i)
            && OffsetAt(table, i) == OffsetNumber(bytes, i)
  {
    hide ReadU32be, NumberAt, Count;
    var table := bytes[16..TableEnd(bytes)];
    WordIsNumber(table, 8 * i);
    WordIsNumber(table, 8 * i + 4);
    assert NumberAt(table, 8 * i) == NumberAt(bytes, 16 + 8 * i) by { SubNumber(bytes, 16, TableEnd(bytes), 8 * i); }
    assert NumberAt(table, 8 * i + 4) == OffsetNumber(bytes, i) by {
      SubNumber(bytes, 16, TableEnd(bytes), 8 * i + 4);
    }
  }

  lemma SubNumber(bytes: Bytes, from: nat, to: nat, at: nat)
    requires from <= to <= |bytes| && from + at + 4 <= to
    ensures NumberAt(bytes[from..to], at) == NumberAt(bytes, from + at)
  {
    var a, b := bytes[from..to][at..at + 4], bytes[from + at..from + at + 4];
    assert forall k :: 0 <= k < 4 ==> a[k] == bytes[from..to][at + k] == bytes[from + at + k] == b[k];
    assert a == b;
  }

  /** An array of `n` items fits its bytes: `n` + 1 rows, their offsets never stepping back nor past the end. */
  ghost predicate WellFormed(bytes: Bytes) {
    && |bytes| >= 24
    && bytes[..4] == [0x49, 0x56, 0x41, 0x31]
    && var n := NumberAt(bytes, 12);
    && n < 0x100_0000
    && |bytes| >= 24 + 8 * n
    && (forall i :: 0 <= i <= n ==> OffsetNumber(bytes, i) <= |bytes| - (24 + 8 * n))
    && (forall i, j :: 0 <= i < j <= n ==> OffsetNumber(bytes, i) <= OffsetNumber(bytes, j))
  }

  lemma RowsAreWellFormed(bytes: Bytes)
    requires |bytes| >= 24 && |bytes| >= TableEnd(bytes) && NumberAt(bytes, 12) == Count(bytes)
    ensures var end := TableEnd(bytes);
            Tiles(bytes[16..end], Count(bytes) + 1, |bytes| - end) <==>
            && (forall i :: 0 <= i <= Count(bytes) ==> OffsetNumber(bytes, i) <= |bytes| - end)
            && (forall i, j :: 0 <= i < j <= Count(bytes) ==> OffsetNumber(bytes, i) <= OffsetNumber(bytes, j))
  {
    hide IdAt, OffsetAt, NumberAt, OffsetNumber, Count;
    forall i | 0 <= i <= Count(bytes)
      ensures OffsetAt(bytes[16..TableEnd(bytes)], i) == OffsetNumber(bytes, i)
    {
      RowIsAt(bytes, i);
    }
  }

  /**
   * Bytes are accepted if and only if they are well formed; then the encoding is the number at 8 and item
   * `i` has the id at 16 + 8i and the bytes from the offset in row i to that in row i + 1, counted from
   * the end of the table.
   */
  lemma AcceptsWellFormed(bytes: Bytes)
    ensures Decoding(bytes).Ok? <==> WellFormed(bytes)
    ensures Decoding(bytes).Ok? ==>
              var n, c := NumberAt(bytes, 12), Decoding(bytes).value;
              && c.encoding == NumberAt(bytes, 8)
              && |c.items| == n
              && forall i :: 0 <= i < n ==>
                   && c.items[i].id == NumberAt(bytes, 16 + 8 * i)
                   && c.items[i].data == bytes[24 + 8 * n..][OffsetNumber(bytes, i)..OffsetNumber(bytes, i + 1)]
  {
    hide ReadU32be, IdAt, OffsetAt, NumberAt, OffsetNumber;
    if |bytes| >= 24 {
      WordIsNumber(bytes, 8);
      WordIsNumber(bytes, 12);
      if |bytes| >= TableEnd(bytes) {
        forall i | 0 <= i <= Count(bytes)
          ensures IdAt(bytes[16..TableEnd(bytes)], i) == NumberAt(bytes, 16 + 8 * i)
          ensures OffsetAt(bytes[16..TableEnd(bytes)], i) == OffsetNumber(bytes, i)
        {
          RowIsAt(bytes, i);
        }
        RowsAreWellFormed(bytes);
      }
    }
  }
}
