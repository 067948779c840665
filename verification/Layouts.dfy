/** The building blocks of every wire and file layout, and what reading a whole message promises. */
module Layouts {
  import opened Endian
  import opened Codec

  datatype EncodeError = CountTooLarge | ElementTooLarge | StringTooLong

  datatype Encoded = Fine(bytes: Bytes) | Refused(error: EncodeError)

  /** The most elements a 16-bit count, and the most bytes a 16-bit size, can say. */
  const MAX_COUNT: nat := 65535
  const MAX_SIZE: nat := 65535

  // ------------------------------------------------------------------
  // Fixed pieces
  // ------------------------------------------------------------------

  /** Bytes that write a value in which every byte matters are the bytes written. */
  lemma WritesExactly<T(!new)>(c: Codec<T>, x: T, b: Bytes)
    requires c.cares(x) == Kept(|c.write(x)|)
    ensures Writes(c, x, b) <==> b == c.write(x)
  {
    AgreedExactly(b, c.write(x));
  }

  /** The laws of a layout that always takes `n` bytes, from those bytes alone. */
  lemma FixedLaws<T(!new)>(c: Codec<T>, n: nat)
    requires forall x: T :: |c.cares(x)| == |c.write(x)| && (c.fits(x) ==> |c.write(x)| == n)
    requires forall s: Bytes :: |s| < n ==> c.read(s) == Err(Truncated)
    requires forall s: Bytes :: c.read(s).Ok? ==>
               c.read(s).value.1 == s[n..] && c.fits(c.read(s).value.0) && Writes(c, c.read(s).value.0, s[..n])
    requires forall x: T, b: Bytes, rest: Bytes :: c.fits(x) && Writes(c, x, b) ==> c.read(b + rest) == Ok((x, rest))
    ensures Lawful(c)
  {
    hide Writes;
    forall s | c.read(s).Ok?
      ensures var (x, rest) := c.read(s).value;
              c.fits(x) && |rest| <= |s| && rest == s[|s| - |rest|..] && Writes(c, x, s[..|s| - |rest|])
    {
      assert |s| - |s[n..]| == n;
    }
    forall x, b, k: nat | c.fits(x) && Writes(c, x, b) && k < |b| ensures c.read(b[..k]) == Err(Truncated) {
      WritesSize(c, x, b);
    }
    Laws(c);
  }

  /** Exactly `n` bytes as they are. */
  function Raw(n: nat): Codec<Bytes> {
    Codec((x: Bytes) => x, s => RawRead(n, s), (x: Bytes) => |x| == n, (x: Bytes) => Kept(|x|))
  }

  function RawRead(n: nat, s: Bytes): Result<(Bytes, Bytes)> {
    if |s| < n then Err(Truncated) else Ok((s[..n], s[n..]))
  }

  lemma RawLawful(n: nat)
    ensures Lawful(Raw(n)) && Exact(Raw(n))
  {
    hide Writes, Lawful;
    var c := Raw(n);
    forall x, s, rest | c.fits(x) && Writes(c, x, s) ensures c.read(s + rest) == Ok((x, rest)) {
      WritesExactly(c, x, s);
      assert (s + rest)[..n] == x && (s + rest)[n..] == rest;
    }
    forall s | c.read(s).Ok?
      ensures c.read(s).value.1 == s[n..] && c.fits(c.read(s).value.0) && Writes(c, c.read(s).value.0, s[..n])
    {
      WritesExactly(c, s[..n], s[..n]);
    }
    FixedLaws(c, n);
  }

  /** `n` reserved bytes: written as zeros, skipped when read. */
  function Skip(n: nat): Codec<()> {
    Codec(_ => Zeros(n), s => SkipRead(n, s), _ => true, _ => Ignored(n))
  }

  function SkipRead(n: nat, s: Bytes): Result<((), Bytes)> {
    if |s| < n then Err(Truncated) else Ok(((), s[n..]))
  }

  lemma SkipLawful(n: nat)
    ensures Lawful(Skip(n))
  {
    var c := Skip(n);
    forall x: (), s, rest | c.fits(x) && Writes(c, x, s) ensures c.read(s + rest) == Ok((x, rest)) {
      assert x == ();
      assert (s + rest)[n..] == rest;
    }
    FixedLaws(c, n);
  }

  /** A fixed tag, with the error for anything else. */
  function Tag(tag: Bytes, error: Error): Codec<()> {
    Codec(_ => tag, s => TagRead(tag, error, s), _ => true, _ => Kept(|tag|))
  }

  function TagRead(tag: Bytes, error: Error, s: Bytes): Result<((), Bytes)> {
    if |s| < |tag| then Err(Truncated)
    else if s[..|tag|] != tag then Err(error)
    else Ok(((), s[|tag|..]))
  }

  lemma TagLawful(tag: Bytes, error: Error)
    ensures Lawful(Tag(tag, error)) && Exact(Tag(tag, error))
  {
    hide Writes, Lawful;
    var c, n := Tag(tag, error), |tag|;
    forall x: (), s, rest | c.fits(x) && Writes(c, x, s) ensures c.read(s + rest) == Ok((x, rest)) {
      WritesExactly(c, x, s);
      assert x == ();
      assert (s + rest)[..n] == tag && (s + rest)[n..] == rest;
    }
    forall s | c.read(s).Ok?
      ensures c.read(s).value.1 == s[n..] && c.fits(c.read(s).value.0) && Writes(c, c.read(s).value.0, s[..n])
    {
      WritesExactly(c, (), s[..n]);
    }
    FixedLaws(c, n);
  }

  // ------------------------------------------------------------------
  // Integers
  // ------------------------------------------------------------------

  const U8 := Codec((v: nat) => PutU8(v), s => TakeU8(s), (v: nat) => v < 0x100, (v: nat) => Kept(1))

  const U16 := Codec((v: nat) => PutU16(v), s => TakeU16(s), (v: nat) => v < 0x1_0000, (v: nat) => Kept(2))

  const U32 := Codec((v: nat) => PutU32(v), s => TakeU32(s), (v: nat) => v < 0x1_0000_0000, (v: nat) => Kept(4))

  /** A number read from a field, as a value of that field's width. */
  function Clip16(v: nat): u16 {
    if v < 0x1_0000 then v else 0
  }

  function Clip32(v: nat): u32 {
    if v < 0x1_0000_0000 then v else 0
  }

  /** Writing keeps only the low bits, as a cast to the field's width does. */
  function PutU8(v: nat): (b: Bytes)
    ensures |b| == 1
  {
    [v % 0x100]
  }

  function PutU16(v: nat): (b: Bytes)
    ensures |b| == 2
  {
    WriteU16be(v % 0x1_0000)
  }

  function PutU32(v: nat): (b: Bytes)
    ensures |b| == 4
  {
    WriteU32be(v % 0x1_0000_0000)
  }

  function TakeU8(s: Bytes): Result<(nat, Bytes)> {
    if |s| < 1 then Err(Truncated) else Ok((s[0] as nat, s[1..]))
  }

  function TakeU16(s: Bytes): Result<(nat, Bytes)> {
    if |s| < 2 then Err(Truncated) else Ok((ReadU16be(s) as nat, s[2..]))
  }

  function TakeU32(s: Bytes): Result<(nat, Bytes)> {
    if |s| < 4 then Err(Truncated) else Ok((ReadU32be(s) as nat, s[4..]))
  }

  /** A number is written cut down to its field, and as it is when it fits. */
  lemma U16Writes(v: nat)
    ensures U16.write(v) == WriteU16be(v % 0x1_0000)
    ensures v < 0x1_0000 ==> U16.write(v) == WriteU16be(v)
  {
    hide WriteU16be;
  }

  lemma U32Writes(v: nat)
    ensures U32.write(v) == WriteU32be(v % 0x1_0000_0000)
    ensures v < 0x1_0000_0000 ==> U32.write(v) == WriteU32be(v)
  {
    hide WriteU32be;
  }

  lemma U8Lawful()
    ensures Lawful(U8) && Exact(U8)
  {
    hide Writes, Lawful;
    forall x: nat, s, rest | U8.fits(x) && Writes(U8, x, s) ensures U8.read(s + rest) == Ok((x, rest)) {
      WritesExactly(U8, x, s);
      assert (s + rest)[1..] == rest;
    }
    forall s | U8.read(s).Ok?
      ensures U8.read(s).value.1 == s[1..] && U8.fits(U8.read(s).value.0) && Writes(U8, U8.read(s).value.0, s[..1])
    {
      WritesExactly(U8, U8.read(s).value.0, s[..1]);
    }
    FixedLaws(U8, 1);
  }

  lemma U16Lawful()
    ensures Lawful(U16) && Exact(U16)
  {
    hide ReadU16be, WriteU16be, Writes, Lawful;
    forall x: nat, s, rest | U16.fits(x) && Writes(U16, x, s) ensures U16.read(s + rest) == Ok((x, rest)) {
      WritesExactly(U16, x, s);
      ReadWriteU16(x, rest);
      assert (s + rest)[2..] == rest;
    }
    forall s | U16.read(s).Ok?
      ensures U16.read(s).value.1 == s[2..] && U16.fits(U16.read(s).value.0) && Writes(U16, U16.read(s).value.0, s[..2])
    {
      WriteReadU16(s);
      WritesExactly(U16, U16.read(s).value.0, s[..2]);
    }
    FixedLaws(U16, 2);
  }

  lemma U32Lawful()
    ensures Lawful(U32) && Exact(U32)
  {
    hide ReadU32be, WriteU32be, Writes, Lawful;
    forall x: nat, s, rest | U32.fits(x) && Writes(U32, x, s) ensures U32.read(s + rest) == Ok((x, rest)) {
      WritesExactly(U32, x, s);
      ReadWriteU32(x, rest);
      assert (s + rest)[4..] == rest;
    }
    forall s | U32.read(s).Ok?
      ensures U32.read(s).value.1 == s[4..] && U32.fits(U32.read(s).value.0) && Writes(U32, U32.read(s).value.0, s[..4])
    {
      WriteReadU32(s);
      WritesExactly(U32, U32.read(s).value.0, s[..4]);
    }
    FixedLaws(U32, 4);
  }

  // ------------------------------------------------------------------
  // A flag, and a name in a padded field
  // ------------------------------------------------------------------

  /** The low bit of a 16-bit word; the other fifteen bits are written as zeros and skipped when read. */
  const FLAG := Codec((on: bool) => [0, if on then 1 else 0], s => TakeFlag(s), (on: bool) => true,
                      (on: bool) => [Nothing, LowBit])

  function TakeFlag(s: Bytes): Result<(bool, Bytes)> {
    if |s| < 2 then Err(Truncated) else Ok((s[1] % 2 == 1, s[2..]))
  }

  lemma FlagLawful()
    ensures Lawful(FLAG)
  {
    forall on, s, rest | FLAG.fits(on) && Writes(FLAG, on, s) ensures FLAG.read(s + rest) == Ok((on, rest)) {
      assert Agrees(FLAG.cares(on)[1], s[1], FLAG.write(on)[1]);
      assert (s + rest)[2..] == rest;
    }
    FixedLaws(FLAG, 2);
  }

  type Width = n: nat | 1 <= n <= 0x100 witness 1

  /** A length byte and a name, filled up with zeros; a longer name is cut off when written. */
  function PutName(size: Width, name: Bytes): (b: Bytes)
    ensures |b| == size
  {
    var n := Min(|name|, size - 1);
    [n] + name[..n] + Zeros(size - 1 - n)
  }

  /** A length that overruns the field is cut down to it, or reported as truncation. */
  function TakeName(size: Width, clamps: bool, s: Bytes): Result<(Bytes, Bytes)> {
    if |s| < size || (!clamps && s[0] > size - 1) then Err(Truncated)
    else Ok((s[1..1 + Min(s[0], size - 1)], s[size..]))
  }

  function NameCares(size: Width, clamps: bool, name: Bytes): (m: seq<Care>)
    ensures |m| == size
  {
    var n := Min(|name|, size - 1);
    [if clamps then UpTo(size - 1) else All] + Kept(n) + Ignored(size - 1 - n)
  }

  function PaddedName(size: Width, clamps: bool): Codec<Bytes> {
    Codec((x: Bytes) => PutName(size, x), s => TakeName(size, clamps, s), (x: Bytes) => |x| < size,
          (x: Bytes) => NameCares(size, clamps, x))
  }

  lemma NameBack(size: Width, clamps: bool, x: Bytes, s: Bytes, rest: Bytes)
    requires |x| < size && Agreed(NameCares(size, clamps, x), s, PutName(size, x))
    ensures TakeName(size, clamps, s + rest) == Ok((x, rest))
  {
    var m, w := NameCares(size, clamps, x), PutName(size, x);
    assert Agrees(m[0], s[0], w[0]);
    forall i | 0 <= i < |x| ensures s[1 + i] == x[i] { assert Agrees(m[1 + i], s[1 + i], w[1 + i]); }
    assert (s + rest)[1..1 + |x|] == x && (s + rest)[size..] == rest;
  }

  lemma NameOnly(size: Width, clamps: bool, s: Bytes)
    requires TakeName(size, clamps, s).Ok?
    ensures var (x, rest) := TakeName(size, clamps, s).value;
            |x| < size && Agreed(NameCares(size, clamps, x), s[..size], PutName(size, x))
  {
    var x := TakeName(size, clamps, s).value.0;
    var m, w := NameCares(size, clamps, x), PutName(size, x);
    forall i | 0 <= i < size ensures Agrees(m[i], s[..size][i], w[i]) {
    }
  }

  lemma PaddedNameLawful(size: Width, clamps: bool)
    ensures Lawful(PaddedName(size, clamps))
  {
    hide Lawful, TakeName, PutName, NameCares, Agreed;
    var c := PaddedName(size, clamps);
    forall s: Bytes | |s| < size ensures c.read(s) == Err(Truncated) { NameNeeds(size, clamps, s); }
    forall x, s, rest | c.fits(x) && Writes(c, x, s) ensures c.read(s + rest) == Ok((x, rest)) {
      NameBack(size, clamps, x, s, rest);
    }
    forall s | c.read(s).Ok?
      ensures c.read(s).value.1 == s[size..] && c.fits(c.read(s).value.0) && Writes(c, c.read(s).value.0, s[..size])
    {
      NameNeeds(size, clamps, s);
      NameOnly(size, clamps, s);
    }
    FixedLaws(c, size);
  }

  lemma NameNeeds(size: Width, clamps: bool, s: Bytes)
    ensures |s| < size ==> TakeName(size, clamps, s) == Err(Truncated)
    ensures TakeName(size, clamps, s).Ok? ==> |s| >= size && TakeName(size, clamps, s).value.1 == s[size..]
  {
  }

  // ------------------------------------------------------------------
  // A size, then what it sizes
  // ------------------------------------------------------------------

  function SizedRead<T>(size: Codec<nat>, body: nat -> Codec<T>, s: Bytes): Result<(T, Bytes)> {
    match size.read(s)
    case Err(e) => Err(e)
    case Ok((n, rest)) => body(n).read(rest)
  }

  function Sized<T>(size: Codec<nat>, body: nat -> Codec<T>, of: T -> nat): Codec<T> {
    Codec((x: T) => size.write(of(x)) + body(of(x)).write(x),
          s => SizedRead(size, body, s),
          (x: T) => size.fits(of(x)) && body(of(x)).fits(x),
          (x: T) => size.cares(of(x)) + body(of(x)).cares(x))
  }

  /** Every body is lawful and takes only values of its own size. */
  ghost predicate SizesBodies<T(!new)>(body: nat -> Codec<T>, of: T -> nat) {
    && (forall n :: Lawful(body(n)))
    && (forall n, x :: body(n).fits(x) ==> of(x) == n)
  }

  lemma SizedSplits<T(!new)>(size: Codec<nat>, body: nat -> Codec<T>, of: T -> nat, x: T, s: Bytes)
    requires Lawful(size) && SizesBodies(body, of)
    ensures Writes(Sized(size, body, of), x, s) <==> Writes(Pair(size, body(of(x))), (of(x), x), s)
  {
  }

  lemma SizedBack<T(!new)>(size: Codec<nat>, body: nat -> Codec<T>, of: T -> nat, x: T, s: Bytes, rest: Bytes)
    requires Lawful(size) && SizesBodies(body, of) && Sized(size, body, of).fits(x)
             && Writes(Sized(size, body, of), x, s)
    ensures Sized(size, body, of).read(s + rest) == Ok((x, rest))
  {
    hide Lawful, Writes;
    SizedSplits(size, body, of, x, s);
    PairBack(size, body(of(x)), (of(x), x), s, rest);
  }

  lemma SizedCut<T(!new)>(size: Codec<nat>, body: nat -> Codec<T>, of: T -> nat, x: T, s: Bytes, n: nat)
    requires Lawful(size) && SizesBodies(body, of) && Sized(size, body, of).fits(x)
             && Writes(Sized(size, body, of), x, s)
    requires n < |s|
    ensures Sized(size, body, of).read(s[..n]) == Err(Truncated)
  {
    hide Lawful, Writes;
    SizedSplits(size, body, of, x, s);
    var b := body(of(x));
    PairSplits(size, b, (of(x), x), s);
    var k := |size.write(of(x))|;
    if n < k {
      assert s[..n] == s[..k][..n];
      Cut(size, of(x), s[..k], n);
    } else {
      assert s[..n] == s[..k] + s[k..][..n - k];
      Back(size, of(x), s[..k], s[k..][..n - k]);
      WritesSize(b, x, s[k..]);
      Cut(b, x, s[k..], n - k);
    }
  }

  lemma SizedOnly<T(!new)>(size: Codec<nat>, body: nat -> Codec<T>, of: T -> nat, s: Bytes)
    requires Lawful(size) && SizesBodies(body, of) && Sized(size, body, of).read(s).Ok?
    ensures var (x, rest) := Sized(size, body, of).read(s).value;
            && Sized(size, body, of).fits(x) && |rest| <= |s| && rest == s[|s| - |rest|..]
            && Writes(Sized(size, body, of), x, s[..|s| - |rest|])
  {
    hide Lawful, Writes;
    var n := size.read(s).value.0;
    PairOnly(size, body(n), s);
    var (p, rest) := Pair(size, body(n)).read(s).value;
    SizedSplits(size, body, of, p.1, s[..|s| - |rest|]);
  }

  lemma SizedLawful<T(!new)>(size: Codec<nat>, body: nat -> Codec<T>, of: T -> nat)
    requires Lawful(size) && SizesBodies(body, of)
    ensures Lawful(Sized(size, body, of))
    ensures Exact(size) && (forall n :: Exact(body(n))) ==> Exact(Sized(size, body, of))
  {
    hide Writes, Sized, Lawful;
    var c := Sized(size, body, of);
    forall x, s, rest | c.fits(x) && Writes(c, x, s) ensures c.read(s + rest) == Ok((x, rest)) {
      SizedBack(size, body, of, x, s, rest);
    }
    forall s | c.read(s).Ok?
      ensures var (x, rest) := c.read(s).value;
              c.fits(x) && |rest| <= |s| && rest == s[|s| - |rest|..] && Writes(c, x, s[..|s| - |rest|])
    {
      SizedOnly(size, body, of, s);
    }
    forall x, s, n: nat | c.fits(x) && Writes(c, x, s) && n < |s| ensures c.read(s[..n]) == Err(Truncated) {
      SizedCut(size, body, of, x, s, n);
    }
    forall x
      ensures |c.cares(x)| == |c.write(x)|
      ensures Exact(size) && (forall n :: Exact(body(n))) ==> c.cares(x) == Kept(|c.write(x)|)
    {
      SizedSizes(size, body, of, x);
    }
    Laws(c);
  }

  lemma SizedSizes<T(!new)>(size: Codec<nat>, body: nat -> Codec<T>, of: T -> nat, x: T)
    requires Lawful(size) && SizesBodies(body, of)
    ensures var c := Sized(size, body, of);
            && |c.cares(x)| == |c.write(x)|
            && (Exact(size) && (forall n :: Exact(body(n))) ==> c.cares(x) == Kept(|c.write(x)|))
  {
    hide Lawful;
    Sizes(size, of(x));
    Sizes(body(of(x)), x);
  }

  /** Bytes behind their size. */
  function Blob(size: Codec<nat>): Codec<Bytes> {
    Sized(size, n => Raw(n), (x: Bytes) => |x|)
  }

  lemma BlobLawful(size: Codec<nat>)
    requires Lawful(size)
    ensures Lawful(Blob(size)) && (Exact(size) ==> Exact(Blob(size)))
  {
    hide Lawful, Exact, RawRead;
    forall n: nat ensures Lawful(Raw(n)) && Exact(Raw(n)) { RawLawful(n); }
    SizedLawful(size, n => Raw(n), (x: Bytes) => |x|);
  }

  /** Elements behind their count. */
  function Counted<T>(size: Codec<nat>, c: Codec<T>): Codec<seq<T>> {
    Sized(size, n => Many(c, n), (xs: seq<T>) => |xs|)
  }

  lemma CountedLawful<T(!new)>(size: Codec<nat>, c: Codec<T>)
    requires Lawful(size) && Lawful(c)
    ensures Lawful(Counted(size, c)) && (Exact(size) && Exact(c) ==> Exact(Counted(size, c)))
  {
    hide Lawful, Exact;
    forall n: nat ensures Lawful(Many(c, n)) && (Exact(c) ==> Exact(Many(c, n))) { ManyLawful(c, n); }
    SizedLawful(size, n => Many(c, n), (xs: seq<T>) => |xs|);
  }

  /** A counted list, opened up. */
  lemma CountedOpens<T>(size: Codec<nat>, c: Codec<T>, xs: seq<T>, s: Bytes)
    ensures Counted(size, c).write(xs) == size.write(|xs|) + WriteMany(c, xs)
    ensures Counted(size, c).fits(xs) <==> size.fits(|xs|) && AllFit(c, xs)
    ensures var r := size.read(s);
            Counted(size, c).read(s) == if r.Err? then Err(r.error) else ReadMany(c, r.value.0, r.value.1)
  {
  }

  lemma BlobOpens(size: Codec<nat>, x: Bytes, s: Bytes)
    ensures Blob(size).write(x) == size.write(|x|) + x
    ensures Blob(size).fits(x) <==> size.fits(|x|)
    ensures var r := size.read(s);
            Blob(size).read(s) == if r.Err? then Err(r.error) else RawRead(r.value.0, r.value.1)
  {
  }

  // ------------------------------------------------------------------
  // Other shapes of the same bytes
  // ------------------------------------------------------------------

  function MappedRead<A, B>(c: Codec<A>, to: A -> B, s: Bytes): Result<(B, Bytes)> {
    match c.read(s)
    case Err(e) => Err(e)
    case Ok((x, rest)) => Ok((to(x), rest))
  }

  /** The same layout for another type of value. */
  function Mapped<A, B>(c: Codec<A>, to: A -> B, from: B -> A): Codec<B> {
    Codec((y: B) => c.write(from(y)), s => MappedRead(c, to, s), (y: B) => c.fits(from(y)), (y: B) => c.cares(from(y)))
  }

  ghost predicate Inverse<A(!new), B(!new)>(c: Codec<A>, to: A -> B, from: B -> A) {
    (forall x :: c.fits(x) ==> from(to(x)) == x) && (forall y :: to(from(y)) == y)
  }

  lemma MappedLawful<A(!new), B(!new)>(c: Codec<A>, to: A -> B, from: B -> A)
    requires Lawful(c) && Inverse(c, to, from)
    ensures Lawful(Mapped(c, to, from)) && (Exact(c) ==> Exact(Mapped(c, to, from)))
  {
    hide Lawful;
    var m := Mapped(c, to, from);
    forall y, s, rest | m.fits(y) && Writes(m, y, s) ensures m.read(s + rest) == Ok((y, rest)) {
      assert Writes(c, from(y), s);
      Back(c, from(y), s, rest);
    }
    forall s | m.read(s).Ok?
      ensures var (y, rest) := m.read(s).value;
              m.fits(y) && |rest| <= |s| && rest == s[|s| - |rest|..] && Writes(m, y, s[..|s| - |rest|])
    {
      var n := Only(c, s);
    }
    forall y, s, n: nat | m.fits(y) && Writes(m, y, s) && n < |s| ensures m.read(s[..n]) == Err(Truncated) {
      assert Writes(c, from(y), s);
      Cut(c, from(y), s, n);
    }
    forall y ensures |m.cares(y)| == |m.write(y)| { Sizes(c, from(y)); }
    Laws(m);
  }

  /** A layout behind a piece that holds no value. */
  function After<T>(lead: Codec<()>, c: Codec<T>): Codec<T> {
    Mapped(Pair(lead, c), (p: ((), T)) => p.1, (x: T) => ((), x))
  }

  lemma AfterLawful<T(!new)>(lead: Codec<()>, c: Codec<T>)
    requires Lawful(lead) && Lawful(c)
    ensures Lawful(After(lead, c)) && (Exact(lead) && Exact(c) ==> Exact(After(lead, c)))
  {
    hide Lawful, Exact;
    PairLawful(lead, c);
    var to, from := (p: ((), T)) => p.1, (x: T) => ((), x);
    forall p: ((), T) ensures from(to(p)) == p { assert p.0 == (); }
    MappedLawful(Pair(lead, c), to, from);
  }

  lemma AfterOpens<T>(lead: Codec<()>, c: Codec<T>, x: T, s: Bytes)
    ensures After(lead, c).write(x) == lead.write(()) + c.write(x)
    ensures After(lead, c).fits(x) <==> lead.fits(()) && c.fits(x)
    ensures var r := lead.read(s);
            After(lead, c).read(s) == if r.Err? then Err(r.error) else c.read(r.value.1)
  {
  }

  // ------------------------------------------------------------------
  // Values that are not all allowed
  // ------------------------------------------------------------------

  function WhereRead<T>(c: Codec<T>, ok: T -> bool, error: Error, s: Bytes): Result<(T, Bytes)> {
    match c.read(s)
    case Err(e) => Err(e)
    case Ok((x, rest)) => if ok(x) then Ok((x, rest)) else Err(error)
  }

  /** The same layout for the allowed values only, with the error for any other. */
  function Where<T>(c: Codec<T>, ok: T -> bool, error: Error): Codec<T> {
    Codec(c.write, s => WhereRead(c, ok, error, s), (x: T) => c.fits(x) && ok(x), c.cares)
  }

  lemma WhereLawful<T(!new)>(c: Codec<T>, ok: T -> bool, error: Error)
    requires Lawful(c)
    ensures Lawful(Where(c, ok, error)) && (Exact(c) ==> Exact(Where(c, ok, error)))
  {
    hide Lawful, Writes;
    var m := Where(c, ok, error);
    forall x, s ensures Writes(m, x, s) <==> Writes(c, x, s) { SameWrites(m, c, x, s); }
    forall x, s, rest | m.fits(x) && Writes(m, x, s) ensures m.read(s + rest) == Ok((x, rest)) {
      Back(c, x, s, rest);
    }
    forall s | m.read(s).Ok?
      ensures var (x, rest) := m.read(s).value;
              m.fits(x) && |rest| <= |s| && rest == s[|s| - |rest|..] && Writes(m, x, s[..|s| - |rest|])
    {
      var n := Only(c, s);
    }
    forall x, s, n: nat | m.fits(x) && Writes(m, x, s) && n < |s| ensures m.read(s[..n]) == Err(Truncated) {
      Cut(c, x, s, n);
    }
    forall x ensures |m.cares(x)| == |m.write(x)| { Sizes(c, x); }
    Laws(m);
  }

  lemma SameWrites<T(!new)>(c: Codec<T>, d: Codec<T>, x: T, s: Bytes)
    requires c.write == d.write && c.cares == d.cares
    ensures Writes(c, x, s) <==> Writes(d, x, s)
  {
  }

  // ------------------------------------------------------------------
  // A layout inside a block of stated size
  // ------------------------------------------------------------------

  function BoxedRead<T>(size: Codec<nat>, c: Codec<T>, s: Bytes): Result<(T, Bytes)> {
    match Blob(size).read(s)
    case Err(e) => Err(e)
    case Ok((block, rest)) =>
      match Whole(c, 0, block)
      case Err(e) => Err(e)
      case Ok(x) => Ok((x, rest))
  }

  /** A value that must fill the block it stands in exactly. */
  function Boxed<T>(size: Codec<nat>, c: Codec<T>): Codec<T> {
    Codec((x: T) => size.write(|c.write(x)|) + c.write(x),
          s => BoxedRead(size, c, s),
          (x: T) => size.fits(|c.write(x)|) && c.fits(x),
          (x: T) => size.cares(|c.write(x)|) + c.cares(x))
  }

  /** A boxed value is a block that holds it. */
  lemma BoxedSplits<T(!new)>(size: Codec<nat>, c: Codec<T>, x: T, s: Bytes) returns (block: Bytes)
    requires Lawful(size) && Lawful(c) && Writes(Boxed(size, c), x, s) && Boxed(size, c).fits(x)
    ensures c.fits(x) && Writes(c, x, block) && Blob(size).fits(block) && Writes(Blob(size), block, s)
  {
    hide Lawful;
    var n := |c.write(x)|;
    Sizes(size, n);
    Sizes(c, x);
    AgreedSplits(size.cares(n), c.cares(x), s, size.write(n), c.write(x));
    block := s[|size.write(n)|..];
    AgreedExactly(block, block);
    AgreedSplits(size.cares(n), Kept(n), s, size.write(n), block);
  }

  lemma BoxedJoins<T(!new)>(size: Codec<nat>, c: Codec<T>, x: T, block: Bytes, s: Bytes)
    requires Lawful(size) && Lawful(c) && Writes(c, x, block) && Writes(Blob(size), block, s)
    ensures Writes(Boxed(size, c), x, s)
  {
    hide Lawful;
    var n := |block|;
    Sizes(size, n);
    Sizes(c, x);
    AgreedSplits(size.cares(n), Kept(n), s, size.write(n), block);
    AgreedExactly(s[|size.write(n)|..], block);
    AgreedSplits(size.cares(n), c.cares(x), s, size.write(n), c.write(x));
  }

  lemma BoxedOnly<T(!new)>(size: Codec<nat>, c: Codec<T>, s: Bytes)
    requires Lawful(size) && Lawful(c) && Boxed(size, c).read(s).Ok?
    ensures var (x, rest) := Boxed(size, c).read(s).value;
            && Boxed(size, c).fits(x) && |rest| <= |s| && rest == s[|s| - |rest|..]
            && Writes(Boxed(size, c), x, s[..|s| - |rest|])
  {
    hide Lawful, Writes, Blob, Whole;
    BlobLawful(size);
    var n := Only(Blob(size), s);
    var block := Blob(size).read(s).value.0;
    WholeReadsOnlyWritten(c, 0, block);
    var x := Whole(c, 0, block).value;
    WritesSize(c, x, block);
    BlobFits(size, block);
    BoxedJoins(size, c, x, block, s[..n]);
  }

  lemma BlobFits(size: Codec<nat>, block: Bytes)
    ensures Blob(size).fits(block) <==> size.fits(|block|)
  {
  }

  lemma BoxedLawful<T(!new)>(size: Codec<nat>, c: Codec<T>)
    requires Lawful(size) && Lawful(c)
    ensures Lawful(Boxed(size, c)) && (Exact(size) && Exact(c) ==> Exact(Boxed(size, c)))
  {
    hide Lawful, Writes, Blob, Whole;
    var m := Boxed(size, c);
    BlobLawful(size);
    forall x, s, rest | m.fits(x) && Writes(m, x, s) ensures m.read(s + rest) == Ok((x, rest)) {
      var block := BoxedSplits(size, c, x, s);
      Back(Blob(size), block, s, rest);
      WholeLaws(c, 0, x, block, 0, []);
    }
    forall s | m.read(s).Ok?
      ensures var (x, rest) := m.read(s).value;
              m.fits(x) && |rest| <= |s| && rest == s[|s| - |rest|..] && Writes(m, x, s[..|s| - |rest|])
    {
      BoxedOnly(size, c, s);
    }
    forall x, s, n: nat | m.fits(x) && Writes(m, x, s) && n < |s| ensures m.read(s[..n]) == Err(Truncated) {
      var block := BoxedSplits(size, c, x, s);
      Cut(Blob(size), block, s, n);
    }
    forall x ensures |m.cares(x)| == |m.write(x)| && (Exact(size) && Exact(c) ==> m.cares(x) == Kept(|m.write(x)|)) {
      Sizes(size, |c.write(x)|);
      Sizes(c, x);
    }
    Laws(m);
  }

  // ------------------------------------------------------------------
  // Whole messages
  // ------------------------------------------------------------------

  /** Reading a message that must end with its input; less than `least` bytes is too little to look at. */
  function Whole<T>(c: Codec<T>, least: nat, s: Bytes): Result<T> {
    if |s| < least then Err(Truncated) else Ended(c.read(s))
  }

  function Ended<T>(r: Result<(T, Bytes)>): Result<T> {
    match r
    case Err(e) => Err(e)
    case Ok((x, rest)) => if rest == [] then Ok(x) else Err(TrailingBytes)
  }

  /** What a lawful layout gives for whole messages. */
  lemma WholeLaws<T(!new)>(c: Codec<T>, least: nat, x: T, b: Bytes, n: nat, more: Bytes)
    requires Lawful(c) && c.fits(x) && Writes(c, x, b) && |b| >= least
    ensures Whole(c, least, b) == Ok(x)
    ensures n < |b| ==> Whole(c, least, b[..n]) == Err(Truncated)
    ensures more != [] ==> Whole(c, least, b + more) == Err(TrailingBytes)
  {
    hide Lawful, Writes;
    Back(c, x, b, []);
    Back(c, x, b, more);
    if n < |b| {
      Cut(c, x, b, n);
    }
  }

  /** A message read whole is, up to bytes that carry no meaning, the writing of what was read. */
  lemma WholeReadsOnlyWritten<T(!new)>(c: Codec<T>, least: nat, b: Bytes)
    requires Lawful(c) && Whole(c, least, b).Ok?
    ensures c.fits(Whole(c, least, b).value) && Writes(c, Whole(c, least, b).value, b)
    ensures Exact(c) ==> c.write(Whole(c, least, b).value) == b
  {
    hide Lawful;
    var n := Only(c, b);
    assert b[..n] == b;
    assert Exact(c) ==> c.cares(c.read(b).value.0) == Kept(|b|);
  }

  lemma WritesItself<T(!new)>(c: Codec<T>, x: T)
    requires Lawful(c)
    ensures Writes(c, x, c.write(x))
  {
  }

  // ------------------------------------------------------------------
  // Whole messages in one block behind a tag
  // ------------------------------------------------------------------

  /** The block must end with the input before anything in it is looked at. */
  function Framed<T>(front: Bytes, size: Codec<nat>, c: Codec<T>, least: nat, s: Bytes): Result<T> {
    match Whole(Pair(Tag(front, WrongFormatTag), Blob(size)), least, s)
    case Err(e) => Err(e)
    case Ok(p) => Whole(c, 0, p.1)
  }

  function FramedWrite<T>(front: Bytes, size: Codec<nat>, c: Codec<T>, x: T): Bytes {
    front + Boxed(size, c).write(x)
  }

  lemma FramedOpens<T>(front: Bytes, size: Codec<nat>, c: Codec<T>, least: nat, s: Bytes)
    requires least >= |front|
    ensures Framed(front, size, c, least, s) ==
            if |s| < least then Err(Truncated)
            else if s[..|front|] != front then Err(WrongFormatTag)
            else
              var r := size.read(s[|front|..]);
              if r.Err? then Err(r.error)
              else if |r.value.1| < r.value.0 then Err(Truncated)
              else if |r.value.1| > r.value.0 then Err(TrailingBytes)
              else Whole(c, 0, r.value.1)
  {
    hide Blob;
    if |s| >= |front| {
      var rest := s[|front|..];
      BlobOpens(size, [], rest);
      if size.read(rest).Ok? {
        var block := size.read(rest).value.1;
        assert block[..|block|] == block;
      }
    }
  }

  lemma FramedLaws<T(!new)>(front: Bytes, size: Codec<nat>, c: Codec<T>, least: nat, x: T, s: Bytes, n: nat,
                            more: Bytes)
    requires Lawful(size) && Lawful(c) && Boxed(size, c).fits(x) && least <= |front| + |s|
    requires Writes(Boxed(size, c), x, s)
    ensures Framed(front, size, c, least, front + s) == Ok(x)
    ensures n < |front + s| ==> Framed(front, size, c, least, (front + s)[..n]) == Err(Truncated)
    ensures more != [] ==> Framed(front, size, c, least, front + s + more) == Err(TrailingBytes)
  {
    hide Lawful, Whole, Writes, Boxed, Blob;
    var tag := Tag(front, WrongFormatTag);
    BlobLawful(size);
    TagLawful(front, WrongFormatTag);
    PairLawful(tag, Blob(size));
    var block := BoxedSplits(size, c, x, s);
    var p := ((), block);
    WritesExactly(tag, p.0, front);
    PairSplits(tag, Blob(size), p, front + s);
    assert tag.fits(p.0) && Pair(tag, Blob(size)).fits(p);
    assert (front + s)[|front|..] == s && (front + s)[..|front|] == front;
    WholeLaws(Pair(tag, Blob(size)), least, p, front + s, n, more);
    WholeLaws(c, 0, x, block, 0, []);
  }

  lemma FramedReadsOnlyWritten<T(!new)>(front: Bytes, size: Codec<nat>, c: Codec<T>, least: nat, s: Bytes)
    requires Lawful(size) && Lawful(c) && Framed(front, size, c, least, s).Ok?
    ensures var x := Framed(front, size, c, least, s).value;
            && front <= s && Boxed(size, c).fits(x) && Writes(Boxed(size, c), x, s[|front|..])
            && (Exact(size) && Exact(c) ==> FramedWrite(front, size, c, x) == s)
  {
    hide Lawful, Whole, Writes, Blob, Exact;
    var tag := Tag(front, WrongFormatTag);
    BlobLawful(size);
    TagLawful(front, WrongFormatTag);
    PairLawful(tag, Blob(size));
    WholeReadsOnlyWritten(Pair(tag, Blob(size)), least, s);
    var p := Whole(Pair(tag, Blob(size)), least, s).value;
    var block := p.1;
    PairSplits(tag, Blob(size), p, s);
    WritesExactly(tag, p.0, s[..|front|]);
    WholeReadsOnlyWritten(c, 0, block);
    var x := Whole(c, 0, block).value;
    WritesSize(c, x, block);
    BlobFits(size, block);
    BoxedJoins(size, c, x, block, s[|front|..]);
    BoxedLawful(size, c);
    ExactWrites(Boxed(size, c), x, s[|front|..]);
  }

  lemma ExactWrites<T(!new)>(c: Codec<T>, x: T, b: Bytes)
    requires Writes(c, x, b)
    ensures Exact(c) ==> b == c.write(x)
  {
    if Exact(c) {
      WritesExactly(c, x, b);
    }
  }
}
