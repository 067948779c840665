/** The body of a transaction: a counted list of numbered fields. */
module FieldList {
  import opened Endian
  import opened Codec
  import opened Layouts

  datatype Field = Field(id: u16, data: Bytes)

  function ToField(p: (nat, Bytes)): Field {
    Field(Clip16(p.0), p.1)
  }

  function FromField(f: Field): (nat, Bytes) {
    (f.id, f.data)
  }

  function OneField(): Codec<Field> {
    Mapped(Pair(U16, Blob(U16)), p => ToField(p), f => FromField(f))
  }

  /** A 16-bit count, then that many fields, each an id, a size and that many bytes. */
  function Fields(): Codec<seq<Field>> {
    Counted(U16, OneField())
  }

  predicate Fits(list: seq<Field>) {
    |list| <= MAX_COUNT && forall i :: 0 <= i < |list| ==> |list[i].data| <= MAX_SIZE
  }

  lemma OneFieldLawful()
    ensures Lawful(OneField()) && Exact(OneField())
    ensures forall f :: OneField().fits(f) <==> |f.data| <= MAX_SIZE
  {
    hide Lawful, Exact;
    U16Lawful();
    BlobLawful(U16);
    PairLawful(U16, Blob(U16));
    var to, from := (p: (nat, Bytes)) => ToField(p), (f: Field) => FromField(f);
    assert Inverse(Pair(U16, Blob(U16)), to, from);
    MappedLawful(Pair(U16, Blob(U16)), to, from);
  }

  lemma FieldsLawful()
    ensures Lawful(Fields()) && Exact(Fields())
    ensures forall list :: Fields().fits(list) <==> Fits(list)
  {
    hide Lawful, Exact, OneField;
    U16Lawful();
    OneFieldLawful();
    CountedLawful(U16, OneField());
  }

  function Encoding(list: seq<Field>): Encoded {
    if |list| > MAX_COUNT then Refused(CountTooLarge)
    else if Fits(list) then Fine(Fields().write(list))
    else Refused(ElementTooLarge)
  }

  function Decoding(bytes: Bytes): Result<seq<Field>> {
    Whole(Fields(), 0, bytes)
  }

  // ------------------------------------------------------------------
  // The code
  // ------------------------------------------------------------------

  method Encode(list: seq<Field>) returns (r: Encoded)
    ensures r == Encoding(list)
    ensures |list| > 65535 ==> r == Refused(CountTooLarge)
    ensures |list| <= 65535 && (exists f :: f in list && |f.data| > 65535) ==> r == Refused(ElementTooLarge)
  {
    hide OneField, Fields, WriteU16be;
    if |list| > MAX_COUNT {
      return Refused(CountTooLarge);
    }
    var out := WriteU16be(|list|);
    var i := 0;
    while i < |list|
      invariant 0 <= i <= |list|
      invariant forall k :: 0 <= k < i ==> |list[k].data| <= MAX_SIZE
      invariant out == WriteU16be(|list|) + WriteMany(OneField(), list[..i])
    {
      var field := list[i];
      if |field.data| > MAX_SIZE {
        return Refused(ElementTooLarge);
      }
      out := out + (WriteU16be(field.id) + WriteU16be(|field.data|) + field.data);
      FieldsGrow(list, i);
      i := i + 1;
    }
    assert list[..i] == list;
    FieldsWrite(list);
    r := Fine(out);
  }

  lemma FieldsGrow(list: seq<Field>, i: nat)
    requires i < |list| && |list[i].data| <= MAX_SIZE
    ensures WriteMany(OneField(), list[..i + 1]) ==
            WriteMany(OneField(), list[..i]) + (WriteU16be(list[i].id) + WriteU16be(|list[i].data|) + list[i].data)
  {
    hide OneField, WriteU16be;
    FieldWrites(list[i]);
    WriteManyAppend(OneField(), list[..i], list[i]);
    assert list[..i + 1] == list[..i] + [list[i]];
  }

  lemma FieldsWrite(list: seq<Field>)
    requires |list| <= MAX_COUNT
    ensures Fields().write(list) == WriteU16be(|list|) + WriteMany(OneField(), list)
  {
    hide OneField, WriteU16be, Counted, U16;
    CountedOpens(U16, OneField(), list, []);
    U16Writes(|list|);
  }

  lemma FieldsRead(s: Bytes)
    ensures Decoding(s) == if |s| < 2 then Err(Truncated) else Ended(ReadMany(OneField(), ReadU16be(s), s[2..]))
  {
    hide OneField, ReadU16be, Counted;
    CountedOpens(U16, OneField(), [], s);
  }

  lemma FieldWrites(f: Field)
    requires |f.data| <= MAX_SIZE
    ensures OneField().write(f) == WriteU16be(f.id) + WriteU16be(|f.data|) + f.data
  {
    hide WriteU16be, Blob;
    BlobOpens(U16, f.data, []);
  }

  lemma FieldReads(s: Bytes)
    ensures |s| < 4 ==> OneField().read(s) == Err(Truncated)
    ensures |s| >= 4 ==>
              var size := ReadU16be(s[2..]);
              OneField().read(s) == if |s[4..]| < size then Err(Truncated)
                                    else Ok((Field(ReadU16be(s), s[4..][..size]), s[4..][size..]))
  {
    hide ReadU16be, Blob;
    if |s| >= 2 {
      BlobOpens(U16, [], s[2..]);
    }
    if |s| >= 4 {
      assert s[2..][2..] == s[4..];
    }
  }

  method Decode(input: Bytes) returns (r: Result<seq<Field>>)
    ensures r == Decoding(input)
  {
    hide OneField, ReadU16be, Decoding;
    FieldsRead(input);
    if |input| < 2 {
      return Err(Truncated);
    }
    var count := ReadU16be(input);
    var bytes := input[2..];
    var list: seq<Field> := [];
    var i := 0;
    ExtendNothing(ReadMany(OneField(), count, bytes));
    while i < count
      invariant 0 <= i <= count
      invariant ReadMany(OneField(), count, input[2..]) == Extend(list, ReadMany(OneField(), count - i, bytes))
    {
      ReadManyStep(OneField(), count - i, list, bytes);
      FieldReads(bytes);
      if |bytes| < 4 {
        return Err(Truncated);
      }
      var id := ReadU16be(bytes);
      var size := ReadU16be(bytes[2..]);
      bytes := bytes[4..];
      if |bytes| < size {
        return Err(Truncated);
      }
      list := list + [Field(id, bytes[..size])];
      bytes := bytes[size..];
      i := i + 1;
    }
    ReadManyDone(OneField(), list, bytes);
    if bytes != [] {
      return Err(TrailingBytes);
    }
    r := Ok(list);
  }

  /** The data of the first field with the id, as the lookup scan finds it. */
  method FindField(list: seq<Field>, id: u16) returns (found: bool, at: nat)
    ensures found ==> at < |list| && list[at].id == id && forall k :: 0 <= k < at ==> list[k].id != id
    ensures !found ==> forall k :: 0 <= k < |list| ==> list[k].id != id
  {
    at := 0;
    while at < |list|
      invariant 0 <= at <= |list|
      invariant forall k :: 0 <= k < at ==> list[k].id != id
    {
      if list[at].id == id {
        return true, at;
      }
      at := at + 1;
    }
    found := false;
  }

  // ------------------------------------------------------------------
  // The codec is a bijection
  // ------------------------------------------------------------------

  /** What is encoded decodes to itself; cut anywhere it is truncated, and nothing may follow it. */
  lemma DecodeUndoesEncode(list: seq<Field>, n: nat, more: Bytes)
    requires Encoding(list).Fine?
    ensures var b := Encoding(list).bytes;
            && Decoding(b) == Ok(list)
            && (n < |b| ==> Decoding(b[..n]) == Err(Truncated))
            && (more != [] ==> Decoding(b + more) == Err(TrailingBytes))
  {
    hide Lawful, Writes, Fields, Whole;
    FieldsLawful();
    WritesItself(Fields(), list);
    WholeLaws(Fields(), 0, list, Fields().write(list), n, more);
  }

  /** What is decoded encodes to exactly the bytes it came from. */
  lemma EncodeUndoesDecode(b: Bytes)
    requires Decoding(b).Ok?
    ensures Encoding(Decoding(b).value) == Fine(b)
  {
    hide Lawful, Exact, Fields, Whole;
    FieldsLawful();
    WholeReadsOnlyWritten(Fields(), 0, b);
  }

  /** The encoding written out: the count, then every field as its id, its size and its bytes. */
  lemma EncodingIs(list: seq<Field>)
    requires Encoding(list).Fine?
    ensures Encoding(list).bytes == WriteU16be(|list|) + WriteMany(OneField(), list)
    ensures forall f :: f in list ==> OneField().write(f) == WriteU16be(f.id) + WriteU16be(|f.data|) + f.data
  {
    hide Fields, OneField, WriteU16be;
    FieldsWrite(list);
    forall f | f in list ensures |f.data| <= MAX_SIZE
              && OneField().write(f) == WriteU16be(f.id) + WriteU16be(|f.data|) + f.data {
      FieldWrites(f);
    }
  }

  // ------------------------------------------------------------------
  // Integer fields
  // ------------------------------------------------------------------

  type i32 = x: int | -0x8000_0000 <= x < 0x8000_0000

  function IntegerField(id: u16, value: i32): Field {
    if 0 <= value <= 0xFFFF then Field(id, WriteU16be(value))
    else Field(id, WriteU32be(if value < 0 then value + 0x1_0000_0000 else value))
  }

  /** No value for a size other than 1, 2 or 4. */
  function IntegerOf(f: Field): (int, bool) {
    if |f.data| == 1 then (f.data[0], true)
    else if |f.data| == 2 then (ReadU16be(f.data), true)
    else if |f.data| == 4 then
      var v: int := ReadU32be(f.data);
      (if v < 0x8000_0000 then v else v - 0x1_0000_0000, true)
    else (0, false)
  }

  /** One, two and four bytes are numbers, highest byte first; only four bytes can be negative. */
  lemma IntegerOfBytes(f: Field)
    ensures IntegerOf(f).1 <==> |f.data| == 1 || |f.data| == 2 || |f.data| == 4
    ensures IntegerOf(f).1 ==>
              IntegerOf(f).0 == BigEndian(f.data) - if BigEndian(f.data) >= 0x8000_0000 then 0x1_0000_0000 else 0
    ensures !IntegerOf(f).1 ==> IntegerOf(f).0 == 0
  {
    hide ReadU16be, ReadU32be;
    if |f.data| == 1 {
      assert f.data[..0] == [];
    } else if |f.data| == 2 {
      BigEndianOfTwo(f.data);
    } else if |f.data| == 4 {
      hide BigEndian;
      BigEndianOfFour(f.data);
    }
  }

  /** Every integer survives, and takes two bytes exactly when it is an unsigned 16-bit value. */
  lemma IntegerRoundTrip(id: u16, value: i32)
    ensures IntegerOf(IntegerField(id, value)) == (value, true)
    ensures |IntegerField(id, value).data| == if 0 <= value < 0x1_0000 then 2 else 4
    ensures IntegerField(id, value).id == id
    ensures BigEndian(IntegerField(id, value).data) == if value < 0 then value + 0x1_0000_0000 else value
  {
    hide ReadU16be, WriteU16be, ReadU32be, WriteU32be, BigEndian;
    if 0 <= value <= 0xFFFF {
      ReadWriteU16(value, []);
      assert WriteU16be(value) + [] == WriteU16be(value);
      BigEndianOfTwo(WriteU16be(value));
    } else {
      var v: u32 := if value < 0 then value + 0x1_0000_0000 else value;
      ReadWriteU32(v, []);
      assert WriteU32be(v) + [] == WriteU32be(v);
      BigEndianOfFour(WriteU32be(v));
    }
  }
}
