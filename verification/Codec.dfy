/** Layouts as values: how to write, how to read, what fits, and which written bytes carry meaning. */
module Codec {
  import opened Endian

  datatype Error = Truncated | TrailingBytes | WrongFormatTag | UnsupportedVersion

  datatype Result<+T> = Ok(value: T) | Err(error: Error)

  /** How much of a written byte its reader looks at. */
  datatype Care = All | LowBit | UpTo(limit: nat) | Nothing

  predicate Agrees(care: Care, a: byte, b: byte) {
    match care
    case All => a == b
    case LowBit => a % 2 == b % 2
    case UpTo(limit) => Min(a, limit) == Min(b, limit)
    case Nothing => true
  }

  predicate Agreed(cares: seq<Care>, a: Bytes, b: Bytes) {
    |cares| == |a| == |b| && forall i :: 0 <= i < |a| ==> Agrees(cares[i], a[i], b[i])
  }

  /** Agreeing on a message is agreeing on a front part and on the rest. */
  lemma AgreedSplits(front: seq<Care>, back: seq<Care>, s: Bytes, w: Bytes, v: Bytes)
    requires |front| == |w| && |back| == |v|
    ensures Agreed(front + back, s, w + v) <==>
            |s| >= |w| && Agreed(front, s[..|w|], w) && Agreed(back, s[|w|..], v)
  {
    var n, cares, all := |w|, front + back, w + v;
    if Agreed(cares, s, all) {
      forall i | 0 <= i < n ensures Agrees(front[i], s[..n][i], w[i]) { assert Agrees(cares[i], s[i], all[i]); }
      forall i | 0 <= i < |v| ensures Agrees(back[i], s[n..][i], v[i]) {
        assert Agrees(cares[n + i], s[n + i], all[n + i]);
      }
    }
    if |s| >= n && Agreed(front, s[..n], w) && Agreed(back, s[n..], v) {
      forall i | 0 <= i < |s| ensures Agrees(cares[i], s[i], all[i]) {
        if i < n {
          assert Agrees(front[i], s[..n][i], w[i]);
        } else {
          assert Agrees(back[i - n], s[n..][i - n], v[i - n]);
        }
      }
    }
  }

  lemma AgreedExactly(a: Bytes, b: Bytes)
    ensures Agreed(Kept(|b|), a, b) <==> a == b
  {
    if Agreed(Kept(|b|), a, b) {
      forall i | 0 <= i < |a| ensures a[i] == b[i] { assert Agrees(Kept(|b|)[i], a[i], b[i]); }
    }
  }

  /** `read` takes a value off the front and returns the rest; `cares` marks what it looks at. */
  datatype Codec<!T> = Codec(write: T -> Bytes, read: Bytes -> Result<(T, Bytes)>, fits: T -> bool,
                             cares: T -> seq<Care>)

  /** Some bytes that agree with what would be written wherever that matters. */
  ghost predicate Writes<T(!new)>(c: Codec<T>, x: T, b: Bytes) {
    Agreed(c.cares(x), b, c.write(x))
  }

  /** Any bytes that write a value, whatever follows, are read as that value. */
  ghost predicate ReadsBack<T(!new)>(c: Codec<T>) {
    forall x: T, b: Bytes, rest: Bytes :: c.fits(x) && Writes(c, x, b) ==> c.read(b + rest) == Ok((x, rest))
  }

  /** Whatever is read was written, up to bytes that carry no meaning. */
  ghost predicate ReadsOnlyWritten<T(!new)>(c: Codec<T>) {
    forall b: Bytes :: c.read(b).Ok? ==>
      var (x, rest) := c.read(b).value;
      && c.fits(x)
      && |rest| <= |b|
      && rest == b[|b| - |rest|..]
      && Writes(c, x, b[..|b| - |rest|])
  }

  /** A value cut short is reported as truncated. */
  ghost predicate ReportsCuts<T(!new)>(c: Codec<T>) {
    forall x: T, b: Bytes, n: nat :: c.fits(x) && Writes(c, x, b) && n < |b| ==> c.read(b[..n]) == Err(Truncated)
  }

  ghost predicate Lawful<T(!new)>(c: Codec<T>) {
    ReadsBack(c) && ReadsOnlyWritten(c) && ReportsCuts(c) && (forall x: T :: |c.cares(x)| == |c.write(x)|)
  }

  /** Every byte carries meaning. */
  ghost predicate Exact<T(!new)>(c: Codec<T>) {
    forall x: T :: c.cares(x) == Kept(|c.write(x)|)
  }

  function Kept(n: nat): (m: seq<Care>)
    ensures |m| == n
  {
    seq(n, _ => All)
  }

  function Ignored(n: nat): (m: seq<Care>)
    ensures |m| == n
  {
    seq(n, _ => Nothing)
  }

  // ------------------------------------------------------------------
  // One layout after another
  // ------------------------------------------------------------------

  function PairRead<A, B>(a: Codec<A>, b: Codec<B>, s: Bytes): Result<((A, B), Bytes)> {
    match a.read(s)
    case Err(e) => Err(e)
    case Ok((x, rest)) =>
      match b.read(rest)
      case Err(e) => Err(e)
      case Ok((y, rest')) => Ok(((x, y), rest'))
  }

  function Pair<A, B>(a: Codec<A>, b: Codec<B>): Codec<(A, B)> {
    Codec((p: (A, B)) => a.write(p.0) + b.write(p.1),
          s => PairRead(a, b, s),
          (p: (A, B)) => a.fits(p.0) && b.fits(p.1),
          (p: (A, B)) => a.cares(p.0) + b.cares(p.1))
  }

  lemma PairSplits<A(!new), B(!new)>(a: Codec<A>, b: Codec<B>, p: (A, B), s: Bytes)
    requires Lawful(a) && Lawful(b)
    ensures Writes(Pair(a, b), p, s) <==>
            var n := |a.write(p.0)|;
            |s| >= n && Writes(a, p.0, s[..n]) && Writes(b, p.1, s[n..])
  {
    AgreedSplits(a.cares(p.0), b.cares(p.1), s, a.write(p.0), b.write(p.1));
  }

  /** The three laws at one value, for use where the quantified laws are hidden. */
  lemma Back<T(!new)>(c: Codec<T>, x: T, b: Bytes, rest: Bytes)
    requires Lawful(c) && c.fits(x) && Writes(c, x, b)
    ensures c.read(b + rest) == Ok((x, rest)) && c.read(b) == Ok((x, []))
  {
    assert b + [] == b;
  }

  lemma Only<T(!new)>(c: Codec<T>, b: Bytes) returns (n: nat)
    requires Lawful(c) && c.read(b).Ok?
    ensures var (x, rest) := c.read(b).value;
            && n <= |b| && rest == b[n..] && c.fits(x) && Writes(c, x, b[..n]) && n == |c.write(x)|
  {
    n := |b| - |c.read(b).value.1|;
  }

  lemma Cut<T(!new)>(c: Codec<T>, x: T, b: Bytes, n: nat)
    requires Lawful(c) && c.fits(x) && Writes(c, x, b) && n < |b|
    ensures c.read(b[..n]) == Err(Truncated)
  {
  }

  lemma Sizes<T(!new)>(c: Codec<T>, x: T)
    requires Lawful(c)
    ensures |c.cares(x)| == |c.write(x)|
  {
  }

  lemma PairBack<A(!new), B(!new)>(a: Codec<A>, b: Codec<B>, p: (A, B), s: Bytes, rest: Bytes)
    requires Lawful(a) && Lawful(b) && Pair(a, b).fits(p) && Writes(Pair(a, b), p, s)
    ensures Pair(a, b).read(s + rest) == Ok((p, rest))
  {
    hide Lawful, Writes;
    PairSplits(a, b, p, s);
    var n := |a.write(p.0)|;
    assert s + rest == s[..n] + (s[n..] + rest);
    Back(a, p.0, s[..n], s[n..] + rest);
    Back(b, p.1, s[n..], rest);
  }

  lemma PairCut<A(!new), B(!new)>(a: Codec<A>, b: Codec<B>, p: (A, B), s: Bytes, n: nat)
    requires Lawful(a) && Lawful(b) && Pair(a, b).fits(p) && Writes(Pair(a, b), p, s) && n < |s|
    ensures Pair(a, b).read(s[..n]) == Err(Truncated)
  {
    hide Lawful, Writes;
    PairSplits(a, b, p, s);
    var k := |a.write(p.0)|;
    if n < k {
      assert s[..n] == s[..k][..n];
      Cut(a, p.0, s[..k], n);
    } else {
      assert s[..n] == s[..k] + s[k..][..n - k];
      Back(a, p.0, s[..k], s[k..][..n - k]);
      WritesSize(b, p.1, s[k..]);
      Cut(b, p.1, s[k..], n - k);
    }
  }

  lemma WritesSize<T(!new)>(c: Codec<T>, x: T, b: Bytes)
    requires Writes(c, x, b)
    ensures |b| == |c.write(x)| == |c.cares(x)|
  {
  }

  lemma PairOnly<A(!new), B(!new)>(a: Codec<A>, b: Codec<B>, s: Bytes)
    requires Lawful(a) && Lawful(b) && Pair(a, b).read(s).Ok?
    ensures var (p, rest) := Pair(a, b).read(s).value;
            && Pair(a, b).fits(p) && |rest| <= |s| && rest == s[|s| - |rest|..]
            && Writes(Pair(a, b), p, s[..|s| - |rest|])
  {
    hide Lawful, Writes;
    var n := Only(a, s);
    var (x, middle) := a.read(s).value;
    var m := Only(b, middle);
    var (y, rest) := b.read(middle).value;
    var whole := s[..n + m];
    assert whole[..n] == s[..n] && whole[n..] == middle[..m];
    assert rest == s[n + m..];
    PairSplits(a, b, (x, y), whole);
  }

  lemma PairSizes<A(!new), B(!new)>(a: Codec<A>, b: Codec<B>, p: (A, B))
    requires Lawful(a) && Lawful(b)
    ensures |Pair(a, b).cares(p)| == |Pair(a, b).write(p)|
    ensures Exact(a) && Exact(b) ==> Pair(a, b).cares(p) == Kept(|Pair(a, b).write(p)|)
  {
    hide Lawful;
    Sizes(a, p.0);
    Sizes(b, p.1);
  }

  /** Laws proved one value at a time. */
  lemma Laws<T(!new)>(c: Codec<T>)
    requires forall x: T, b: Bytes, rest: Bytes :: c.fits(x) && Writes(c, x, b) ==> c.read(b + rest) == Ok((x, rest))
    requires forall b: Bytes :: c.read(b).Ok? ==>
               var (x, rest) := c.read(b).value;
               c.fits(x) && |rest| <= |b| && rest == b[|b| - |rest|..] && Writes(c, x, b[..|b| - |rest|])
    requires forall x: T, b: Bytes, n: nat :: c.fits(x) && Writes(c, x, b) && n < |b| ==>
               c.read(b[..n]) == Err(Truncated)
    requires forall x: T :: |c.cares(x)| == |c.write(x)|
    ensures Lawful(c)
  {
  }

  lemma PairLawful<A(!new), B(!new)>(a: Codec<A>, b: Codec<B>)
    requires Lawful(a) && Lawful(b)
    ensures Lawful(Pair(a, b))
    ensures Exact(a) && Exact(b) ==> Exact(Pair(a, b))
  {
    hide Writes, Pair, Lawful;
    var c := Pair(a, b);
    forall p, s, rest | c.fits(p) && Writes(c, p, s) ensures c.read(s + rest) == Ok((p, rest)) {
      PairBack(a, b, p, s, rest);
    }
    forall s | c.read(s).Ok?
      ensures var (p, rest) := c.read(s).value;
              c.fits(p) && |rest| <= |s| && rest == s[|s| - |rest|..] && Writes(c, p, s[..|s| - |rest|])
    {
      PairOnly(a, b, s);
    }
    forall p, s, n: nat | c.fits(p) && Writes(c, p, s) && n < |s| ensures c.read(s[..n]) == Err(Truncated) {
      PairCut(a, b, p, s, n);
    }
    forall p ensures |c.cares(p)| == |c.write(p)| && (Exact(a) && Exact(b) ==> c.cares(p) == Kept(|c.write(p)|)) {
      PairSizes(a, b, p);
    }
    Laws(c);
  }

  // ------------------------------------------------------------------
  // A number of the same layout
  // ------------------------------------------------------------------

  function WriteMany<T>(c: Codec<T>, xs: seq<T>): Bytes {
    if xs == [] then [] else c.write(xs[0]) + WriteMany(c, xs[1..])
  }

  function CareMany<T>(c: Codec<T>, xs: seq<T>): seq<Care> {
    if xs == [] then [] else c.cares(xs[0]) + CareMany(c, xs[1..])
  }

  predicate AllFit<T>(c: Codec<T>, xs: seq<T>) {
    forall i :: 0 <= i < |xs| ==> c.fits(xs[i])
  }

  function ReadMany<T>(c: Codec<T>, count: nat, s: Bytes): Result<(seq<T>, Bytes)> {
    if count == 0 then Ok(([], s))
    else
      match c.read(s)
      case Err(e) => Err(e)
      case Ok((x, rest)) =>
        match ReadMany(c, count - 1, rest)
        case Err(e) => Err(e)
        case Ok((xs, rest')) => Ok(([x] + xs, rest'))
  }

  function Many<T>(c: Codec<T>, count: nat): Codec<seq<T>> {
    Codec(xs => WriteMany(c, xs), s => ReadMany(c, count, s),
          xs => |xs| == count && AllFit(c, xs), xs => CareMany(c, xs))
  }

  /** A list is its first element and then the others: the pair law, once per element. */
  lemma {:induction false} ManyLawful<T(!new)>(c: Codec<T>, count: nat)
    requires Lawful(c)
    ensures Lawful(Many(c, count))
    ensures Exact(c) ==> Exact(Many(c, count))
  {
    hide Lawful, Writes;
    var m := Many(c, count);
    forall xs ensures |m.cares(xs)| == |m.write(xs)| && (Exact(c) ==> m.cares(xs) == Kept(|m.write(xs)|)) {
      ManySizes(c, xs);
    }
    forall xs, s, rest | m.fits(xs) && Writes(m, xs, s) ensures m.read(s + rest) == Ok((xs, rest)) {
      ManyBack(c, count, xs, s, rest);
    }
    forall s | m.read(s).Ok?
      ensures var (xs, rest) := m.read(s).value;
              m.fits(xs) && |rest| <= |s| && rest == s[|s| - |rest|..] && Writes(m, xs, s[..|s| - |rest|])
    {
      ManyOnly(c, count, s);
    }
    forall xs, s, n: nat | m.fits(xs) && Writes(m, xs, s) && n < |s| ensures m.read(s[..n]) == Err(Truncated) {
      ManyCut(c, count, xs, s, n);
    }
    Laws(m);
  }

  lemma {:induction false} ManySizes<T(!new)>(c: Codec<T>, xs: seq<T>)
    requires Lawful(c)
    ensures |CareMany(c, xs)| == |WriteMany(c, xs)|
    ensures Exact(c) ==> CareMany(c, xs) == Kept(|WriteMany(c, xs)|)
  {
    hide Lawful;
    if xs == [] {
    } else {
      Sizes(c, xs[0]);
      ManySizes(c, xs[1..]);
    }
  }

  /** Bytes that write a list split into those of its first element and those of the others. */
  lemma ManySplits<T(!new)>(c: Codec<T>, count: nat, xs: seq<T>, s: Bytes)
    requires Lawful(c) && xs != [] && count > 0
    ensures Writes(Many(c, count), xs, s) <==>
            var n := |c.write(xs[0])|;
            |s| >= n && Writes(c, xs[0], s[..n]) && Writes(Many(c, count - 1), xs[1..], s[n..])
  {
    hide Lawful;
    ManySizes(c, xs);
    ManySizes(c, xs[1..]);
    Sizes(c, xs[0]);
    AgreedSplits(c.cares(xs[0]), CareMany(c, xs[1..]), s, c.write(xs[0]), WriteMany(c, xs[1..]));
  }

  lemma NothingWritten<T(!new)>(c: Codec<T>, count: nat, s: Bytes)
    ensures Writes(Many(c, count), [], s) <==> s == []
  {
  }

  lemma {:induction false} ManyBack<T(!new)>(c: Codec<T>, count: nat, xs: seq<T>, s: Bytes, rest: Bytes)
    requires Lawful(c) && |xs| == count && AllFit(c, xs) && Writes(Many(c, count), xs, s)
    ensures ReadMany(c, count, s + rest) == Ok((xs, rest))
  {
    hide Lawful, Writes, Many;
    if count == 0 {
      NothingWritten(c, count, s);
      assert s + rest == rest;
    } else {
      ManySplits(c, count, xs, s);
      var n := |c.write(xs[0])|;
      assert s + rest == s[..n] + (s[n..] + rest);
      Back(c, xs[0], s[..n], s[n..] + rest);
      ManyBack(c, count - 1, xs[1..], s[n..], rest);
      assert [xs[0]] + xs[1..] == xs;
    }
  }

  lemma {:induction false} ManyCut<T(!new)>(c: Codec<T>, count: nat, xs: seq<T>, s: Bytes, n: nat)
    requires Lawful(c) && |xs| == count && AllFit(c, xs) && Writes(Many(c, count), xs, s) && n < |s|
    ensures ReadMany(c, count, s[..n]) == Err(Truncated)
  {
    hide Lawful, Writes, Many;
    if count == 0 {
      NothingWritten(c, count, s);
    } else {
      ManySplits(c, count, xs, s);
      var k := |c.write(xs[0])|;
      WritesSize(c, xs[0], s[..k]);
      if n < k {
        assert s[..n] == s[..k][..n];
        Cut(c, xs[0], s[..k], n);
      } else {
        assert s[..n] == s[..k] + s[k..][..n - k];
        Back(c, xs[0], s[..k], s[k..][..n - k]);
        ManyCut(c, count - 1, xs[1..], s[k..], n - k);
      }
    }
  }

  lemma {:induction false} ManyOnly<T(!new)>(c: Codec<T>, count: nat, s: Bytes)
    requires Lawful(c) && ReadMany(c, count, s).Ok?
    ensures var (xs, rest) := ReadMany(c, count, s).value;
            && |xs| == count && AllFit(c, xs)
            && |rest| <= |s| && rest == s[|s| - |rest|..]
            && Writes(Many(c, count), xs, s[..|s| - |rest|])
  {
    hide Lawful, Writes, Many;
    if count == 0 {
      NothingWritten(c, count, s[..0]);
    } else {
      var n := Only(c, s);
      var (x, middle) := c.read(s).value;
      ManyOnly(c, count - 1, middle);
      var (xs, rest) := ReadMany(c, count - 1, middle).value;
      var all := s[..|s| - |rest|];
      assert all[..n] == s[..n] && all[n..] == middle[..|middle| - |rest|];
      assert ([x] + xs)[1..] == xs;
      ManySplits(c, count, [x] + xs, all);
    }
  }

  // ------------------------------------------------------------------
  // Loops over a list
  // ------------------------------------------------------------------

  /** The elements already taken by a loop, put before those still to come. */
  function Extend<T>(done: seq<T>, r: Result<(seq<T>, Bytes)>): Result<(seq<T>, Bytes)> {
    match r
    case Err(e) => Err(e)
    case Ok((xs, rest)) => Ok((done + xs, rest))
  }

  lemma ExtendNothing<T>(r: Result<(seq<T>, Bytes)>)
    ensures Extend([], r) == r
  {
    if r.Ok? {
      assert [] + r.value.0 == r.value.0;
    }
  }

  lemma ReadManyDone<T>(c: Codec<T>, done: seq<T>, s: Bytes)
    ensures Extend(done, ReadMany(c, 0, s)) == Ok((done, s))
  {
    assert done + [] == done;
  }

  lemma ReadManyStep<T>(c: Codec<T>, count: nat, done: seq<T>, s: Bytes)
    requires count > 0
    ensures c.read(s).Err? ==> Extend(done, ReadMany(c, count, s)) == Err(c.read(s).error)
    ensures c.read(s).Ok? ==>
              var (x, rest) := c.read(s).value;
              Extend(done, ReadMany(c, count, s)) == Extend(done + [x], ReadMany(c, count - 1, rest))
  {
    if c.read(s).Ok? {
      var (x, rest) := c.read(s).value;
      var r := ReadMany(c, count - 1, rest);
      if r.Ok? {
        assert done + ([x] + r.value.0) == done + [x] + r.value.0;
      }
    }
  }

  lemma {:induction false} WriteManyAppend<T>(c: Codec<T>, xs: seq<T>, x: T)
    ensures WriteMany(c, xs + [x]) == WriteMany(c, xs) + c.write(x)
  {
    if xs == [] {
      assert xs + [x] == [x];
    } else {
      assert (xs + [x])[1..] == xs[1..] + [x];
      WriteManyAppend(c, xs[1..], x);
    }
  }
}
