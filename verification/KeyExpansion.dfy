/** Blowfish key expansion: the key is mixed into P, then P and S are rewritten by chained encryptions. */
module KeyExpansion {
  import opened Endian
  import opened Blowfish

  /** Where a cursor that wraps at `n` stands after `x` steps. */
  function Wrapped(n: nat, x: nat): (k: nat)
    requires n > 0
    ensures k < n
  {
    if x == 0 then 0
    else
      var k := Wrapped(n, x - 1);
      if k + 1 == n then 0 else k + 1
  }

  /** Byte `x` of the endless repetition of the key. */
  function CyclicByte(key: Bytes, x: nat): byte
    requires |key| > 0
  {
    key[Wrapped(|key|, x)]
  }

  function KeyWord(key: Bytes, i: nat): u32
    requires |key| > 0
  {
    ReadU32be([CyclicByte(key, 4 * i), CyclicByte(key, 4 * i + 1), CyclicByte(key, 4 * i + 2),
               CyclicByte(key, 4 * i + 3)])
  }

  /** The round-key array after its first `n` words took the key in. */
  function MixedP(p: seq<u32>, key: Bytes, n: nat): (q: seq<u32>)
    requires |p| == 18 && |key| > 0 && n <= 18
    ensures |q| == 18
    ensures forall i :: 0 <= i < n ==> q[i] == XorWord(p[i], KeyWord(key, i))
    ensures forall i :: n <= i < 18 ==> q[i] == p[i]
  {
    if n == 0 then p else MixedP(p, key, n - 1)[n - 1 := XorWord(p[n - 1], KeyWord(key, n - 1))]
  }

  /** P and the four S-boxes behind it, as one row of words; they are rewritten two at a time. */
  const WORDS: nat := 18 + 4 * 256
  const PAIRS: nat := WORDS / 2

  function WordAt(key: Schedule, w: nat): u32
    requires w < WORDS
  {
    if w < 18 then key.p[w] else key.s[(w - 18) / 256][(w - 18) % 256]
  }

  /** A schedule under rewriting, with the word pair the chain carries. */
  datatype Chain = Chain(key: Schedule, l: u32, r: u32)

  function Paired(words: seq<u32>, j: nat, l: u32, r: u32): (w: seq<u32>)
    requires j + 1 < |words|
    ensures |w| == |words|
  {
    words[j := l][j + 1 := r]
  }

  function WithP(key: Schedule, j: nat, l: u32, r: u32): Schedule
    requires j < 17
  {
    key.(p := Paired(key.p, j, l, r))
  }

  function WithBox(key: Schedule, box: nat, j: nat, l: u32, r: u32): Schedule
    requires box < 4 && j < 255
  {
    key.(s := key.s[box := Paired(key.s[box], j, l, r)])
  }

  function WithPair(key: Schedule, n: nat, l: u32, r: u32): Schedule
    requires n < PAIRS
  {
    if n < 9 then WithP(key, 2 * n, l, r) else WithBox(key, (n - 9) / 128, (n - 9) % 128 * 2, l, r)
  }

  function Stepped(c: Chain, n: nat): Chain
    requires n < PAIRS
  {
    var (l, r) := Encrypted(c.l, c.r, c.key);
    Chain(WithPair(c.key, n, l, r), l, r)
  }

  /** The chain after the first `n` pairs of words were rewritten, each under the words as they are then. */
  function Filled(c: Chain, n: nat): Chain
    requires n <= PAIRS
  {
    if n == 0 then c else Stepped(Filled(c, n - 1), n - 1)
  }

  function Mixed(pi: Schedule, key: Bytes): Schedule
    requires |key| > 0
  {
    pi.(p := MixedP(pi.p, key, 18))
  }

  function Expanded(pi: Schedule, key: Bytes): Schedule
    requires |key| > 0
  {
    Filled(Chain(Mixed(pi, key), 0, 0), PAIRS).key
  }

  /** Four key bytes, wrapping, as one big-endian word; `at` is where the next word starts. */
  method TakeWord(key: Bytes, ghost i: nat, k: nat) returns (word: u32, at: nat)
    requires |key| > 0 && k == Wrapped(|key|, 4 * i)
    ensures word == KeyWord(key, i)
    ensures at == Wrapped(|key|, 4 * (i + 1))
  {
    hide ReadU32be, Wrapped;
    word, at := 0, k;
    assert 4 * i + 4 == 4 * (i + 1) && 4 * i == 4 * i + 0;
    ghost var taken: Bytes := [];
    for j := 0 to 4
      invariant at == Wrapped(|key|, 4 * i + j)
      invariant |taken| == j && forall x :: 0 <= x < j ==> taken[x] == CyclicByte(key, 4 * i + x)
      invariant word == BigEndian(taken)
    {
      BigEndianOfThree(taken);
      word := word as int * 0x100 % 0x1_0000_0000 + key[at] as int;
      ghost var next := taken + [key[at]];
      assert next[..j] == taken;
      taken := next;
      NextWrap(|key|, 4 * i + j);
      at := (at + 1) % |key|;
    }
    BigEndianOfFour(taken);
    assert taken == [CyclicByte(key, 4 * i), CyclicByte(key, 4 * i + 1), CyclicByte(key, 4 * i + 2),
                     CyclicByte(key, 4 * i + 3)];
  }

  method MixKey(pi: Schedule, key: Bytes) returns (out: Schedule)
    requires |key| > 0
    ensures out == Mixed(pi, key)
  {
    out := pi;
    var k: nat := 0;
    for i := 0 to 18
      invariant out == pi.(p := MixedP(pi.p, key, i))
      invariant k == Wrapped(|key|, 4 * i)
    {
      var word: u32;
      word, k := TakeWord(key, i, k);
      out := out.(p := out.p[i := XorWord(out.p[i], word)]);
    }
  }

  /** Rewrites P by chained encryptions, each under the array as rewritten so far. */
  method FillP(key: Schedule) returns (out: Schedule, l: u32, r: u32)
    ensures Chain(out, l, r) == Filled(Chain(key, 0, 0), 9)
  {
    hide Encrypted, Paired, WithP;
    ghost var start := Chain(key, 0, 0);
    out, l, r := key, 0, 0;
    for i := 0 to 9
      invariant Chain(out, l, r) == Filled(start, i)
    {
      l, r := EncryptWords(l, r, out);
      out := WithP(out, 2 * i, l, r);
    }
  }

  /** Rewrites one S-box, from the words the chain carries. */
  method FillBox(ghost start: Chain, key: Schedule, l0: u32, r0: u32, box: nat) returns (out: Schedule, l: u32, r: u32)
    requires box < 4 && Chain(key, l0, r0) == Filled(start, 9 + 128 * box)
    ensures Chain(out, l, r) == Filled(start, 9 + 128 * (box + 1))
  {
    hide Encrypted, Paired, WithBox;
    out, l, r := key, l0, r0;
    for j := 0 to 128
      invariant Chain(out, l, r) == Filled(start, 9 + 128 * box + j)
    {
      l, r := EncryptWords(l, r, out);
      out := WithBox(out, box, 2 * j, l, r);
    }
  }

  method ExpandKey(pi: Schedule, key: Bytes) returns (out: Schedule)
    requires |key| > 0
    ensures out == Expanded(pi, key)
    ensures IsExpansion(pi, key, out)
  {
    hide WellSized, Filled;
    var l: u32, r: u32;
    out := MixKey(pi, key);
    ghost var start := Chain(out, 0, 0);
    out, l, r := FillP(out);
    for box := 0 to 4
      invariant Chain(out, l, r) == Filled(start, 9 + 128 * box)
    {
      out, l, r := FillBox(start, out, l, r, box);
    }
    ExpandedIsExpansion(pi, key);
  }

  lemma NextWrap(n: nat, x: nat)
    requires n > 0
    ensures Wrapped(n, x + 1) == (Wrapped(n, x) + 1) % n
  {
  }

  // ------------------------------------------------------------------
  // What the schedule is
  // ------------------------------------------------------------------

  /** Pair `n` of a schedule. */
  function PairOf(key: Schedule, n: nat): (u32, u32)
    requires n < PAIRS
  {
    (WordAt(key, 2 * n), WordAt(key, 2 * n + 1))
  }

  /** The pair before pair `n`, or two zeros. */
  function Before(key: Schedule, n: nat): (u32, u32)
    requires n < PAIRS
  {
    if n == 0 then (0, 0) else PairOf(key, n - 1)
  }

  /** Words of the result before word `w`; from it on, P masked with the key words and S as it was given. */
  ghost function InForce(pi: Schedule, key: Bytes, out: Schedule, w: nat): (k: Schedule)
    requires |key| > 0
    ensures forall i :: 0 <= i < 18 ==> k.p[i] == if i < w then out.p[i] else XorWord(pi.p[i], KeyWord(key, i))
    ensures forall box, j :: 0 <= box < 4 && 0 <= j < 256 ==>
              k.s[box][j] == if 18 + 256 * box + j < w then out.s[box][j] else pi.s[box][j]
  {
    Schedule(seq(18, i requires 0 <= i < 18 => if i < w then out.p[i] else XorWord(pi.p[i], KeyWord(key, i))),
             seq(4, box requires 0 <= box < 4 =>
               seq(256, j requires 0 <= j < 256 =>
                 if 18 + 256 * box + j < w then out.s[box][j] else pi.s[box][j])))
  }

  /**
   * Each pair, the nine of P and the 128 of each S-box in turn, is the pair before it encrypted, the
   * first the encryption of two zeros; the schedule in force has what was rewritten before the pair.
   */
  ghost predicate IsExpansion(pi: Schedule, key: Bytes, out: Schedule)
    requires |key| > 0
  {
    forall n: nat :: n < PAIRS ==>
      PairOf(out, n) == Encrypted(Before(out, n).0, Before(out, n).1, InForce(pi, key, out, 2 * n))
  }

  /** A key word is four bytes of the key repeated without end, the first one highest. */
  lemma KeyWordIsCyclic(key: Bytes, i: nat)
    requires |key| > 0
    ensures KeyWord(key, i) == BigEndian(seq(4, j requires 0 <= j < 4 => key[(4 * i + j) % |key|]))
  {
    hide ReadU32be, Wrapped;
    WrappedIsModulo(|key|, 4 * i);
    WrappedIsModulo(|key|, 4 * i + 1);
    WrappedIsModulo(|key|, 4 * i + 2);
    WrappedIsModulo(|key|, 4 * i + 3);
    var b := seq(4, j requires 0 <= j < 4 => key[(4 * i + j) % |key|]);
    assert b == [CyclicByte(key, 4 * i), CyclicByte(key, 4 * i + 1), CyclicByte(key, 4 * i + 2),
                 CyclicByte(key, 4 * i + 3)];
    BigEndianOfFour(b);
  }

  lemma {:induction false} WrappedIsModulo(n: nat, x: nat)
    requires n > 0
    ensures Wrapped(n, x) == x % n
  {
    if x == 0 {
    } else {
      WrappedIsModulo(n, x - 1);
      ModuloStep(n, x);
    }
  }

  lemma ModuloStep(n: nat, x: nat)
    requires n > 0 && x > 0
    ensures x % n == if (x - 1) % n + 1 == n then 0 else (x - 1) % n + 1
  {
    var q, k := (x - 1) / n, (x - 1) % n;
    if k + 1 == n {
      Distributes(n, q, 1);
      ModuloIs(n, x, q + 1, 0);
    } else {
      ModuloIs(n, x, q, k + 1);
    }
  }

  lemma Distributes(n: int, q: int, k: int)
    ensures n * (q + k) == n * q + n * k
  {
  }

  lemma ModuloIs(n: nat, x: nat, q: int, k: nat)
    requires k < n && x == n * q + k
    ensures x % n == k
  {
    var d := q - x / n;
    Distributes(n, x / n, d);
    assert n * d == x % n - k;
    if d > 0 {
      Distributes(n, 1, d - 1);
      NotNegative(n, d - 1);
    } else if d < 0 {
      Distributes(n, d, 1);
      NotNegative(n, -d - 1);
    }
  }

  lemma NotNegative(n: nat, k: nat)
    ensures n * k >= 0
  {
  }

  lemma WithPairAt(key: Schedule, n: nat, l: u32, r: u32, w: nat)
    requires n < PAIRS && w < WORDS
    ensures WordAt(WithPair(key, n, l, r), w) ==
            if w == 2 * n then l else if w == 2 * n + 1 then r else WordAt(key, w)
  {
    if n >= 9 && w >= 18 {
      var box, j := (n - 9) / 128, (n - 9) % 128 * 2;
      assert 2 * n - 18 == 256 * box + j;
      assert (w - 18) / 256 == box && (w - 18) % 256 == j <==> w == 2 * n;
      assert (w - 18) / 256 == box && (w - 18) % 256 == j + 1 <==> w == 2 * n + 1;
    }
  }

  lemma SameWords(a: Schedule, b: Schedule)
    requires forall w: nat :: w < WORDS ==> WordAt(a, w) == WordAt(b, w)
    ensures a == b
  {
    forall i | 0 <= i < 18 ensures a.p[i] == b.p[i] { assert WordAt(a, i) == WordAt(b, i); }
    forall box | 0 <= box < 4 ensures a.s[box] == b.s[box] {
      forall j | 0 <= j < 256 ensures a.s[box][j] == b.s[box][j] {
        var w := 18 + 256 * box + j;
        assert WordAt(a, w) == WordAt(b, w) && (w - 18) / 256 == box && (w - 18) % 256 == j;
      }
    }
    assert a.s == b.s;
  }

  /** The words behind those rewritten are still the mixed ones. */
  lemma {:induction false} FilledLeaves(c: Chain, n: nat, w: nat)
    requires n <= PAIRS && 2 * n <= w < WORDS
    ensures WordAt(Filled(c, n).key, w) == WordAt(c.key, w)
  {
    hide Encrypted, WithPair, WordAt;
    if n == 0 {
    } else {
      FilledLeaves(c, n - 1, w);
      var d := Filled(c, n - 1);
      WithPairAt(d.key, n - 1, Stepped(d, n - 1).l, Stepped(d, n - 1).r, w);
    }
  }

  /** A word once rewritten stays. */
  lemma {:induction false} FilledSettles(c: Chain, m: nat, n: nat, w: nat)
    requires m <= n <= PAIRS && w < 2 * m
    ensures WordAt(Filled(c, n).key, w) == WordAt(Filled(c, m).key, w)
  {
    hide Encrypted, WithPair, WordAt;
    if n == m {
    } else {
      FilledSettles(c, m, n - 1, w);
      var d := Filled(c, n - 1);
      WithPairAt(d.key, n - 1, Stepped(d, n - 1).l, Stepped(d, n - 1).r, w);
    }
  }

  lemma FilledCarries(c: Chain, n: nat)
    requires 0 < n <= PAIRS
    ensures PairOf(Filled(c, n).key, n - 1) == (Filled(c, n).l, Filled(c, n).r)
            == Encrypted(Filled(c, n - 1).l, Filled(c, n - 1).r, Filled(c, n - 1).key)
  {
    hide Encrypted, WithPair, WordAt;
    var d := Filled(c, n - 1);
    var (l, r) := Encrypted(d.l, d.r, d.key);
    WithPairAt(d.key, n - 1, l, r, 2 * n - 2);
    WithPairAt(d.key, n - 1, l, r, 2 * n - 1);
  }

  lemma InForceAt(pi: Schedule, key: Bytes, out: Schedule, w: nat, x: nat)
    requires |key| > 0 && x < WORDS
    ensures WordAt(InForce(pi, key, out, w), x) == if x < w then WordAt(out, x) else WordAt(Mixed(pi, key), x)
  {
    hide InForce, KeyWord, XorWord;
    if x >= 18 {
      var box, j := (x - 18) / 256, (x - 18) % 256;
      assert 18 + 256 * box + j == x;
    }
  }

  /** The schedule in force for pair `n` is the chain's. */
  lemma FilledInForce(pi: Schedule, key: Bytes, n: nat)
    requires |key| > 0 && n <= PAIRS
    ensures InForce(pi, key, Expanded(pi, key), 2 * n) == Filled(Chain(Mixed(pi, key), 0, 0), n).key
  {
    hide InForce, Filled, WordAt;
    var start := Chain(Mixed(pi, key), 0, 0);
    var a, b := InForce(pi, key, Expanded(pi, key), 2 * n), Filled(start, n).key;
    forall w: nat | w < WORDS ensures WordAt(a, w) == WordAt(b, w) {
      InForceAt(pi, key, Expanded(pi, key), 2 * n, w);
      if w < 2 * n {
        FilledSettles(start, n, PAIRS, w);
      } else {
        FilledLeaves(start, n, w);
      }
    }
    SameWords(a, b);
  }

  lemma ExpandedIsExpansion(pi: Schedule, key: Bytes)
    requires |key| > 0
    ensures IsExpansion(pi, key, Expanded(pi, key))
  {
    hide InForce, Filled, WordAt, Encrypted, PairOf;
    var start := Chain(Mixed(pi, key), 0, 0);
    var out := Expanded(pi, key);
    FilledNothing(start);
    forall n: nat | n < PAIRS
      ensures PairOf(out, n) == Encrypted(Before(out, n).0, Before(out, n).1, InForce(pi, key, out, 2 * n))
    {
      FilledInForce(pi, key, n);
      PairSettles(start, n + 1);
      if n > 0 {
        PairSettles(start, n);
      }
    }
  }

  lemma FilledNothing(c: Chain)
    ensures Filled(c, 0) == c
  {
  }

  lemma PairSettles(c: Chain, n: nat)
    requires 0 < n <= PAIRS
    ensures PairOf(Filled(c, PAIRS).key, n - 1) == (Filled(c, n).l, Filled(c, n).r)
            == Encrypted(Filled(c, n - 1).l, Filled(c, n - 1).r, Filled(c, n - 1).key)
  {
    hide Filled, WordAt, Encrypted;
    FilledCarries(c, n);
    FilledSettles(c, n, PAIRS, 2 * n - 2);
    FilledSettles(c, n, PAIRS, 2 * n - 1);
  }

  lemma {:induction false} ExpansionsAgree(pi: Schedule, key: Bytes, a: Schedule, b: Schedule, n: nat)
    requires |key| > 0 && IsExpansion(pi, key, a) && IsExpansion(pi, key, b) && n <= PAIRS
    ensures forall w: nat :: w < 2 * n ==> WordAt(a, w) == WordAt(b, w)
  {
    hide InForce, WordAt, Encrypted;
    if n == 0 {
    } else {
      ExpansionsAgree(pi, key, a, b, n - 1);
      var x, y := InForce(pi, key, a, 2 * (n - 1)), InForce(pi, key, b, 2 * (n - 1));
      forall w: nat | w < WORDS ensures WordAt(x, w) == WordAt(y, w) {
        InForceAt(pi, key, a, 2 * (n - 1), w);
        InForceAt(pi, key, b, 2 * (n - 1), w);
      }
      SameWords(x, y);
      assert Before(a, n - 1) == Before(b, n - 1);
      assert PairOf(a, n - 1) == PairOf(b, n - 1);
    }
  }

  /** That description has one schedule: the expanded one. */
  lemma ExpansionIsUnique(pi: Schedule, key: Bytes, out: Schedule)
    requires |key| > 0
    ensures IsExpansion(pi, key, out) <==> out == Expanded(pi, key)
  {
    hide IsExpansion, Expanded, WordAt;
    ExpandedIsExpansion(pi, key);
    if IsExpansion(pi, key, out) {
      ExpansionsAgree(pi, key, out, Expanded(pi, key), PAIRS);
      SameWords(out, Expanded(pi, key));
    }
  }

  // ------------------------------------------------------------------
  // What the schedule depends on
  // ------------------------------------------------------------------

  /** Only the first 72 bytes of the endless key repetition reach the schedule. */
  lemma DependsOnCyclicStream(pi: Schedule, a: Bytes, b: Bytes)
    requires |a| > 0 && |b| > 0
    requires forall x :: 0 <= x < 72 ==> CyclicByte(a, x) == CyclicByte(b, x)
    ensures Expanded(pi, a) == Expanded(pi, b)
  {
    forall i | 0 <= i < 18
      ensures KeyWord(a, i) == KeyWord(b, i)
    {
    }
    assert MixedP(pi.p, a, 18) == MixedP(pi.p, b, 18);
  }

  function Repeat(key: Bytes, m: nat): Bytes {
    if m == 0 then [] else key + Repeat(key, m - 1)
  }

  lemma {:induction false} RepeatLength(key: Bytes, m: nat)
    requires |key| > 0 && m > 0
    ensures |Repeat(key, m)| >= |key| && Repeat(key, m)[..|key|] == key
  {
  }

  /** The cursor into m copies always faces the rest of one copy followed by whole copies. */
  lemma {:induction false} CursorsAgree(key: Bytes, m: nat, x: nat) returns (j: nat)
    requires |key| > 0 && m > 0
    ensures |Repeat(key, m)| > 0
    ensures Repeat(key, m)[Wrapped(|Repeat(key, m)|, x)..] == key[Wrapped(|key|, x)..] + Repeat(key, j)
  {
    RepeatLength(key, m);
    var copies := Repeat(key, m);
    if x == 0 {
      j := m - 1;
    } else {
      j := CursorsAgree(key, m, x - 1);
      var y, k := Wrapped(|copies|, x - 1), Wrapped(|key|, x - 1);
      assert copies[y..][1..] == copies[y + 1..];
      if k + 1 == |key| {
        assert copies[y + 1..] == Repeat(key, j);
        j := if j == 0 then m - 1 else j - 1;
      } else {
        assert copies[y + 1..] == key[k + 1..] + Repeat(key, j);
      }
    }
  }

  /** A key and any number of copies of it in a row expand to the same schedule. */
  lemma RepeatedKeyExpandsAlike(pi: Schedule, key: Bytes, m: nat)
    requires |key| > 0 && m > 0
    ensures |Repeat(key, m)| > 0
    ensures Expanded(pi, Repeat(key, m)) == Expanded(pi, key)
  {
    hide Expanded;
    RepeatLength(key, m);
    forall x | 0 <= x < 72
      ensures CyclicByte(Repeat(key, m), x) == CyclicByte(key, x)
    {
      var j := CursorsAgree(key, m, x);
      assert Repeat(key, m)[Wrapped(|Repeat(key, m)|, x)..][0] == (key[Wrapped(|key|, x)..] + Repeat(key, j))[0];
    }
    DependsOnCyclicStream(pi, Repeat(key, m), key);
  }
}
