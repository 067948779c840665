/** MD5 (sections 3.1 to 3.5 of RFC 1321): block function, and the one-shot digest over a tail buffer. */
module Md5 {
  import opened Endian
  import opened Padding
  import opened BitLogic

  function Pick(four: seq<bv32>, i: nat): bv32
    requires |four| == 4 && i < 4
  {
    four[i]
  }

  /** The additive constants of section 3.4, four to a line. */
  function K(i: nat): bv32
    requires i < 64
  {
    if i < 4 then Pick([0xd76aa478, 0xe8c7b756, 0x242070db, 0xc1bdceee], i % 4)
    else if i < 8 then Pick([0xf57c0faf, 0x4787c62a, 0xa8304613, 0xfd469501], i % 4)
    else if i < 12 then Pick([0x698098d8, 0x8b44f7af, 0xffff5bb1, 0x895cd7be], i % 4)
    else if i < 16 then Pick([0x6b901122, 0xfd987193, 0xa679438e, 0x49b40821], i % 4)
    else if i < 20 then Pick([0xf61e2562, 0xc040b340, 0x265e5a51, 0xe9b6c7aa], i % 4)
    else if i < 24 then Pick([0xd62f105d, 0x02441453, 0xd8a1e681, 0xe7d3fbc8], i % 4)
    else if i < 28 then Pick([0x21e1cde6, 0xc33707d6, 0xf4d50d87, 0x455a14ed], i % 4)
    else if i < 32 then Pick([0xa9e3e905, 0xfcefa3f8, 0x676f02d9, 0x8d2a4c8a], i % 4)
    else if i < 36 then Pick([0xfffa3942, 0x8771f681, 0x6d9d6122, 0xfde5380c], i % 4)
    else if i < 40 then Pick([0xa4beea44, 0x4bdecfa9, 0xf6bb4b60, 0xbebfbc70], i % 4)
    else if i < 44 then Pick([0x289b7ec6, 0xeaa127fa, 0xd4ef3085, 0x04881d05], i % 4)
    else if i < 48 then Pick([0xd9d4d039, 0xe6db99e5, 0x1fa27cf8, 0xc4ac5665], i % 4)
    else if i < 52 then Pick([0xf4292244, 0x432aff97, 0xab9423a7, 0xfc93a039], i % 4)
    else if i < 56 then Pick([0x655b59c3, 0x8f0ccc92, 0xffeff47d, 0x85845dd1], i % 4)
    else if i < 60 then Pick([0x6fa87e4f, 0xfe2ce6e0, 0xa3014314, 0x4e0811a1], i % 4)
    else Pick([0xf7537e82, 0xbd3af235, 0x2ad7d2bb, 0xeb86d391], i % 4)
  }

  /** The rotations of section 3.4: four a round, repeated. */
  function Amount(i: nat): (s: nat)
    requires i < 64
    ensures s <= 32
  {
    if i < 16 then [7, 12, 17, 22][i % 4]
    else if i < 32 then [5, 9, 14, 20][i % 4]
    else if i < 48 then [4, 11, 16, 23][i % 4]
    else [6, 10, 15, 21][i % 4]
  }

  const STEPS: nat := 64

  datatype State = State(a: bv32, b: bv32, c: bv32, d: bv32)

  const INITIAL := State(0x67452301, 0xefcdab89, 0x98badcfe, 0x10325476)

  function RotateLeft(value: bv32, amount: nat): bv32
    requires amount <= 32
  {
    (value << amount) | (value >> (32 - amount))
  }

  function Word(block: Block64, g: nat): bv32
    requires g < 16
  {
    (block[4 * g] as bv32) | ((block[4 * g + 1] as bv32) << 8)
    | ((block[4 * g + 2] as bv32) << 16) | ((block[4 * g + 3] as bv32) << 24)
  }

  function Mix(i: nat, b: bv32, c: bv32, d: bv32): bv32 {
    if i < 16 then (b & c) | (!b & d)
    else if i < 32 then (d & b) | (!d & c)
    else if i < 48 then b ^ c ^ d
    else c ^ (b | !d)
  }

  function WordIndex(i: nat): (g: nat)
    ensures g < 16
  {
    if i < 16 then i
    else if i < 32 then (5 * i + 1) % 16
    else if i < 48 then (3 * i + 5) % 16
    else 7 * i % 16
  }

  function NextB(a: bv32, b: bv32, f: bv32, k: bv32, w: bv32, s: nat): bv32
    requires s <= 32
  {
    b + RotateLeft(a + f + k + w, s)
  }

  function Plus(x: State, y: State): State {
    State(x.a + y.a, x.b + y.b, x.c + y.c, x.d + y.d)
  }

  function Step(st: State, block: Block64, i: nat): State
    requires i < 64
  {
    State(st.d, NextB(st.a, st.b, Mix(i, st.b, st.c, st.d), K(i), Word(block, WordIndex(i)), Amount(i)), st.b, st.c)
  }

  function Steps(st: State, block: Block64, n: nat): State
    requires n <= STEPS
  {
    if n == 0 then st else Step(Steps(st, block, n - 1), block, n - 1)
  }

  function Compressed(st: State, block: Block64): State {
    Plus(st, Steps(st, block, STEPS))
  }

  function Digested(message: Bytes): (d: Bytes)
    ensures |d| == 16
  {
    var st := Folded(Compressed, INITIAL, Padded(message, true));
    Emitted(st.a) + Emitted(st.b) + Emitted(st.c) + Emitted(st.d)
  }

  function Emitted(v: bv32): (b: Bytes)
    ensures |b| == 4
  {
    [(v & 0xFF) as int, ((v >> 8) & 0xFF) as int, ((v >> 16) & 0xFF) as int, ((v >> 24) & 0xFF) as int]
  }

  // ------------------------------------------------------------------
  // Against the text of RFC 1321
  // ------------------------------------------------------------------

  /**
   * The four functions of section 3.4 bit by bit: the first chooses c where b is set and d elsewhere,
   * the second b where d is set and c elsewhere, the third is parity, and the fourth is b ^ c where d
   * is set and the complement of c elsewhere.
   */
  lemma MixIsPerBit(i: nat, b: bv32, c: bv32, d: bv32)
    ensures i < 16 ==> ChosenBy(Mix(i, b, c, d), b, c, d)
    ensures 16 <= i < 32 ==> ChosenBy(Mix(i, b, c, d), d, b, c)
    ensures 32 <= i < 48 ==> EvenBits(Mix(i, b, c, d), b, c, d)
    ensures 48 <= i ==> ChosenBy(Mix(i, b, c, d), d, b ^ c, !c)
  {
    if i < 16 {
      ChoiceChooses(b, c, d);
    } else if i < 32 {
      ChoiceChooses(d, b, c);
    } else if i < 48 {
      SumIsParity(b, c, d);
    } else {
      LastChooses(b, c, d);
    }
  }

  lemma LastChooses(b: bv32, c: bv32, d: bv32)
    ensures ChosenBy(c ^ (b | !d), d, b ^ c, !c)
  {
  }

  /** The words the operations of the four rounds take, and their rotations, as section 3.4 lists them. */
  lemma OrderOfWords(j: nat)
    requires j < 16
    ensures WordIndex(j) == j
    ensures WordIndex(16 + j) == [1, 6, 11, 0, 5, 10, 15, 4, 9, 14, 3, 8, 13, 2, 7, 12][j]
    ensures WordIndex(32 + j) == [5, 8, 11, 14, 1, 4, 7, 10, 13, 0, 3, 6, 9, 12, 15, 2][j]
    ensures WordIndex(48 + j) == [0, 7, 14, 5, 12, 3, 10, 1, 8, 15, 6, 13, 4, 11, 2, 9][j]
    ensures Amount(j) == [7, 12, 17, 22][j % 4] && Amount(16 + j) == [5, 9, 14, 20][j % 4]
    ensures Amount(32 + j) == [4, 11, 16, 23][j % 4] && Amount(48 + j) == [6, 10, 15, 21][j % 4]
  {
    assert (16 + j) % 4 == j % 4 && (32 + j) % 4 == j % 4 && (48 + j) % 4 == j % 4;
  }

  /** The operation [abcd k s i] of section 3.4: the new value of its first register. */
  function Operation(block: Block64, i: nat, a: bv32, b: bv32, c: bv32, d: bv32): bv32
    requires i < STEPS
  {
    NextB(a, b, Mix(i, b, c, d), K(i), Word(block, WordIndex(i)), Amount(i))
  }

  /** a = b + ((a + F + T + X) <<< s). */
  lemma OperationAdds(a: bv32, b: bv32, f: bv32, k: bv32, w: bv32, s: nat)
    requires s <= 32
    ensures NextB(a, b, f, k, w, s) == b + RotateLeft(a + f + k + w, s)
  {
    hide RotateLeft;
  }

  lemma StepIsOperation(block: Block64, i: nat, st: State)
    requires i < STEPS
    ensures Step(st, block, i) == State(st.d, Operation(block, i, st.a, st.b, st.c, st.d), st.b, st.c)
  {
    hide Mix, Word, K, NextB, WordIndex, Amount;
  }

  lemma OneStep(st: State, block: Block64, n: nat)
    requires n < STEPS
    ensures Steps(st, block, n + 1) == Step(Steps(st, block, n), block, n)
  {
    hide Step;
  }

  /**
   * Four steps are four operations as the RFC writes them, on the registers in place: [ABCD], [DABC],
   * [CDAB], [BCDA]. The code moves the values from register to register instead.
   */
  lemma FourSteps(st: State, block: Block64, n: nat)
    requires n + 4 <= STEPS
    ensures var now := Steps(st, block, n);
            var a := Operation(block, n, now.a, now.b, now.c, now.d);
            var d := Operation(block, n + 1, now.d, a, now.b, now.c);
            var c := Operation(block, n + 2, now.c, d, a, now.b);
            var b := Operation(block, n + 3, now.b, c, d, a);
            Steps(st, block, n + 4) == State(a, b, c, d)
  {
    hide Steps, Step, Operation;
    OneStep(st, block, n);
    OneStep(st, block, n + 1);
    OneStep(st, block, n + 2);
    OneStep(st, block, n + 3);
    StepIsOperation(block, n, Steps(st, block, n));
    StepIsOperation(block, n + 1, Steps(st, block, n + 1));
    StepIsOperation(block, n + 2, Steps(st, block, n + 2));
    StepIsOperation(block, n + 3, Steps(st, block, n + 3));
  }

  /**
   * A message of less than 56 bytes is one block: its steps are added to the registers of section 3.3,
   * which are then written A, B, C, D.
   */
  lemma DigestOfOneBlock(message: Bytes)
    requires |message| < 56
    ensures |Padded(message, true)| == 64
    ensures var last := Steps(State(0x67452301, 0xefcdab89, 0x98badcfe, 0x10325476), Padded(message, true), 64);
            Digested(message) == Emitted(0x67452301 + last.a) + Emitted(0xefcdab89 + last.b)
                                 + Emitted(0x98badcfe + last.c) + Emitted(0x10325476 + last.d)
  {
    hide Steps, Emitted, LengthBytes;
    TailShape(message, |message|, true);
    FoldOne(Compressed, INITIAL, Padded(message, true));
  }

  /** Words are read and written lowest byte first, and rotated to the left. */
  lemma LowestByteFirst()
    ensures RotateLeft(0x8000_0001, 7) == 0xC0
    ensures Word([0x01, 0x02, 0x03, 0x04] + Zeros(60), 0) == 0x04030201
    ensures Emitted(0x04030201) == [0x01, 0x02, 0x03, 0x04]
  {
  }

  method LoadWords(block: Block64) returns (m: array<bv32>)
    ensures fresh(m) && m.Length == 16
    ensures forall g :: 0 <= g < 16 ==> m[g] == Word(block, g)
  {
    hide Word;
    m := new bv32[16](_ => 0);
    for i := 0 to 16
      invariant forall g :: 0 <= g < i ==> m[g] == Word(block, g)
    {
      m[i] := Word(block, i);
    }
  }

  method ProcessBlock(st: State, block: Block64) returns (out: State)
    ensures out == Compressed(st, block)
  {
    hide NextB, Plus, Mix, K, Word, Amount, WordIndex;
    var m := LoadWords(block);
    var a, b, c, d := st.a, st.b, st.c, st.d;
    for i := 0 to STEPS
      invariant State(a, b, c, d) == Steps(st, block, i)
    {
      var f := Mix(i, b, c, d);
      var g := WordIndex(i);
      var temp := d;
      d := c;
      c := b;
      b := NextB(a, b, f, K(i), m[g], Amount(i));
      a := temp;
    }
    out := Plus(st, State(a, b, c, d));
  }

  method Digest(message: Bytes) returns (digest: Bytes)
    ensures digest == Digested(message)
  {
    hide Compressed, Suffix, Emitted;
    var st := INITIAL;
    var at := 0;
    ghost var suffix := Suffix(|message|, true);
    assert message[0..] == message;
    while |message| - at >= 64
      invariant at <= |message| && at % 64 == 0
      invariant Folded(Compressed, st, message[at..] + suffix) == Folded(Compressed, INITIAL, Padded(message, true))
    {
      FoldStep(Compressed, st, message[at..], suffix);
      assert message[at..][64..] == message[at + 64..] && message[at..][..64] == message[at..at + 64];
      st := ProcessBlock(st, message[at..at + 64]);
      at := at + 64;
    }
    st := Finish(st, message[at..], |message|);
    digest := Emitted(st.a) + Emitted(st.b) + Emitted(st.c) + Emitted(st.d);
  }

  /** The tail buffer: what is left of the message, the marker, zeros, and the bit length. */
  method Finish(st: State, rest: Bytes, size: nat) returns (out: State)
    requires |rest| < 64 && size % 64 == |rest|
    ensures out == Folded(Compressed, st, rest + Suffix(size, true))
  {
    hide Compressed, Suffix, LengthBytes, Folded;
    out := st;
    TailShape(rest, size, true);
    var lengthBytes := LengthBytes(size, true);
    var tail := new byte[128](_ => 0);
    CopyIn(tail, 0, rest);
    var n := |rest|;
    tail[n] := 0x80;
    n := n + 1;
    ghost var last: Block64 := Zeros(56) + lengthBytes;
    if n > 56 {
      ZeroFill(tail, n, 64);
      assert tail[..64] == rest + [0x80] + Zeros(63 - |rest|);
      FoldTwo(Compressed, st, tail[..64], last);
      out := ProcessBlock(out, tail[..64]);
      n := 0;
    } else {
      last := rest + [0x80] + Zeros(55 - |rest|) + lengthBytes;
      FoldOne(Compressed, st, last);
    }
    ZeroFill(tail, n, 56);
    CopyIn(tail, 56, lengthBytes);
    assert tail[..64] == last;
    out := ProcessBlock(out, tail[..64]);
  }
}
