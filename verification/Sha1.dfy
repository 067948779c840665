/** SHA-1 (section 7 of FIPS 180-1): message schedule, block function, and the one-shot digest. */
module Sha1 {
  import opened Endian
  import opened Padding
  import opened BitLogic

  const STEPS: nat := 80

  datatype State = State(h0: bv32, h1: bv32, h2: bv32, h3: bv32, h4: bv32)

  const INITIAL := State(0x67452301, 0xEFCDAB89, 0x98BADCFE, 0x10325476, 0xC3D2E1F0)

  function RotateLeft(value: bv32, amount: nat): bv32
    requires amount <= 32
  {
    (value << amount) | (value >> (32 - amount))
  }

  function Word(block: Block64, g: nat): bv32
    requires g < 16
  {
    ((block[4 * g] as bv32) << 24) | ((block[4 * g + 1] as bv32) << 16)
    | ((block[4 * g + 2] as bv32) << 8) | (block[4 * g + 3] as bv32)
  }

  function Stretch(w3: bv32, w8: bv32, w14: bv32, w16: bv32): bv32 {
    RotateLeft(w3 ^ w8 ^ w14 ^ w16, 1)
  }

  /** Word `t` of the message schedule. */
  function Schedule(block: Block64, t: nat): bv32 {
    if t < 16 then Word(block, t)
    else Stretch(Schedule(block, t - 3), Schedule(block, t - 8), Schedule(block, t - 14), Schedule(block, t - 16))
  }

  function Mix(i: nat, b: bv32, c: bv32, d: bv32): bv32 {
    if i < 20 then (b & c) | (!b & d)
    else if i < 40 then b ^ c ^ d
    else if i < 60 then (b & c) | (b & d) | (c & d)
    else b ^ c ^ d
  }

  function K(i: nat): bv32 {
    if i < 20 then 0x5A827999
    else if i < 40 then 0x6ED9EBA1
    else if i < 60 then 0x8F1BBCDC
    else 0xCA62C1D6
  }

  function NextA(a: bv32, f: bv32, e: bv32, k: bv32, w: bv32): bv32 {
    RotateLeft(a, 5) + f + e + k + w
  }

  function Plus(x: State, y: State): State {
    State(x.h0 + y.h0, x.h1 + y.h1, x.h2 + y.h2, x.h3 + y.h3, x.h4 + y.h4)
  }

  function Step(st: State, block: Block64, i: nat): State {
    State(NextA(st.h0, Mix(i, st.h1, st.h2, st.h3), st.h4, K(i), Schedule(block, i)),
          st.h0, RotateLeft(st.h1, 30), st.h2, st.h3)
  }

  function Steps(st: State, block: Block64, n: nat): State {
    if n == 0 then st else Step(Steps(st, block, n - 1), block, n - 1)
  }

  function Compressed(st: State, block: Block64): State {
    Plus(st, Steps(st, block, STEPS))
  }

  function Emitted(v: bv32): (b: Bytes)
    ensures |b| == 4
  {
    [((v >> 24) & 0xFF) as int, ((v >> 16) & 0xFF) as int, ((v >> 8) & 0xFF) as int, (v & 0xFF) as int]
  }

  function Digested(message: Bytes): (d: Bytes)
    ensures |d| == 20
  {
    var st := Folded(Compressed, INITIAL, Padded(message, false));
    Emitted(st.h0) + Emitted(st.h1) + Emitted(st.h2) + Emitted(st.h3) + Emitted(st.h4)
  }

  /**
   * The functions of section 5 of FIPS 180-1 bit by bit: the first chooses c where b is set and d
   * elsewhere, the third is what two of the three agree on, and the second and fourth are parity.
   */
  lemma MixIsPerBit(i: nat, b: bv32, c: bv32, d: bv32)
    ensures i < 20 ==> ChosenBy(Mix(i, b, c, d), b, c, d)
    ensures 20 <= i < 40 || 60 <= i ==> EvenBits(Mix(i, b, c, d), b, c, d)
    ensures 40 <= i < 60 ==> ChosenBy(Mix(i, b, c, d), b ^ c, d, b)
  {
    if i < 20 {
      ChoiceChooses(b, c, d);
    } else if i < 40 || 60 <= i {
      SumIsParity(b, c, d);
    } else {
      MajorityChooses(b, c, d);
    }
  }

  lemma MajorityChooses(b: bv32, c: bv32, d: bv32)
    ensures ChosenBy((b & c) | (b & d) | (c & d), b ^ c, d, b)
  {
  }

  /**
   * A message of less than 56 bytes is one block: its steps are added to the registers of section 7,
   * which are then written in order.
   */
  lemma DigestOfOneBlock(message: Bytes)
    requires |message| < 56
    ensures |Padded(message, false)| == 64
    ensures var start := State(0x67452301, 0xEFCDAB89, 0x98BADCFE, 0x10325476, 0xC3D2E1F0);
            var last := Steps(start, Padded(message, false), 80);
            Digested(message) == Emitted(0x67452301 + last.h0) + Emitted(0xEFCDAB89 + last.h1)
                                 + Emitted(0x98BADCFE + last.h2) + Emitted(0x10325476 + last.h3)
                                 + Emitted(0xC3D2E1F0 + last.h4)
  {
    hide Steps, Emitted, LengthBytes;
    TailShape(message, |message|, false);
    FoldOne(Compressed, INITIAL, Padded(message, false));
  }

  /** Words are read and written highest byte first, and rotated to the left. */
  lemma HighestByteFirst()
    ensures RotateLeft(0x8000_0001, 7) == 0xC0
    ensures Word([0x01, 0x02, 0x03, 0x04] + Zeros(60), 0) == 0x01020304
    ensures Emitted(0x01020304) == [0x01, 0x02, 0x03, 0x04]
  {
  }

  /** Words of the message schedule behind the block: four earlier ones, rotated by one. */
  lemma WordsStretch(block: Block64, t: nat)
    requires t >= 16
    ensures Schedule(block, t) ==
            RotateLeft(Schedule(block, t - 3) ^ Schedule(block, t - 8) ^ Schedule(block, t - 14)
                       ^ Schedule(block, t - 16), 1)
  {
    hide RotateLeft, Word;
  }

  lemma OneStep(st: State, block: Block64, n: nat)
    ensures Steps(st, block, n + 1) == Step(Steps(st, block, n), block, n)
  {
    hide Step;
  }

  /**
   * The five registers are one sequence of words: from the fifth step on each new word is made of the
   * five before it, the older ones rotated by thirty.
   */
  lemma OneRegister(st: State, block: Block64, n: nat)
    requires n >= 4
    ensures Steps(st, block, n + 1).h0 ==
            NextA(Steps(st, block, n).h0,
                  Mix(n, Steps(st, block, n - 1).h0, RotateLeft(Steps(st, block, n - 2).h0, 30),
                      RotateLeft(Steps(st, block, n - 3).h0, 30)),
                  RotateLeft(Steps(st, block, n - 4).h0, 30), K(n), Schedule(block, n))
  {
    hide Steps, NextA, Mix, RotateLeft, K, Schedule;
    OneStep(st, block, n);
    OneStep(st, block, n - 1);
    OneStep(st, block, n - 2);
    OneStep(st, block, n - 3);
    OneStep(st, block, n - 4);
  }

  method FillSchedule(block: Block64) returns (w: array<bv32>)
    ensures fresh(w) && w.Length == STEPS
    ensures forall g :: 0 <= g < STEPS ==> w[g] == Schedule(block, g)
  {
    hide Word, Stretch;
    w := new bv32[STEPS](_ => 0);
    for i := 0 to 16
      invariant forall g :: 0 <= g < i ==> w[g] == Schedule(block, g)
    {
      w[i] := Word(block, i);
    }
    for i := 16 to STEPS
      invariant forall g :: 0 <= g < i ==> w[g] == Schedule(block, g)
    {
      w[i] := Stretch(w[i - 3], w[i - 8], w[i - 14], w[i - 16]);
    }
  }

  method ProcessBlock(st: State, block: Block64) returns (out: State)
    ensures out == Compressed(st, block)
  {
    hide NextA, Plus, Mix, K, Schedule, RotateLeft;
    var w := FillSchedule(block);
    var a, b, c, d, e := st.h0, st.h1, st.h2, st.h3, st.h4;
    for i := 0 to STEPS
      invariant State(a, b, c, d, e) == Steps(st, block, i)
    {
      var f := Mix(i, b, c, d);
      var temp := NextA(a, f, e, K(i), w[i]);
      e := d;
      d := c;
      c := RotateLeft(b, 30);
      b := a;
      a := temp;
    }
    out := Plus(st, State(a, b, c, d, e));
  }

  method Digest(message: Bytes) returns (digest: Bytes)
    ensures digest == Digested(message)
  {
    hide Compressed, Suffix, Emitted;
    var st := INITIAL;
    var at := 0;
    ghost var suffix := Suffix(|message|, false);
    assert message[0..] == message;
    while |message| - at >= 64
      invariant at <= |message| && at % 64 == 0
      invariant Folded(Compressed, st, message[at..] + suffix) == Folded(Compressed, INITIAL, Padded(message, false))
    {
      FoldStep(Compressed, st, message[at..], suffix);
      assert message[at..][64..] == message[at + 64..] && message[at..][..64] == message[at..at + 64];
      st := ProcessBlock(st, message[at..at + 64]);
      at := at + 64;
    }
    st := Finish(st, message[at..], |message|);
    digest := Emitted(st.h0) + Emitted(st.h1) + Emitted(st.h2) + Emitted(st.h3) + Emitted(st.h4);
  }

  /** The tail buffer: what is left of the message, the marker, zeros, and the bit length. */
  method Finish(st: State, rest: Bytes, size: nat) returns (out: State)
    requires |rest| < 64 && size % 64 == |rest|
    ensures out == Folded(Compressed, st, rest + Suffix(size, false))
  {
    hide Compressed, Suffix, LengthBytes, Folded;
    out := st;
    TailShape(rest, size, false);
    var lengthBytes := LengthBytes(size, false);
    var tail := new byte[128](_ => 0);
    CopyIn(tail, 0, rest);
    var n := |rest|;
    tail[n] := 0x80;
    n := n + 1;
    ghost var last: Block64 := Zeros(56) + lengthBytes;
    if n > 56 {
      ZeroFill(tail, n, 64);
      assert tail[..64] == rest + [0x80] + Zeros(63 - |rest|);
      FoldTwo(Compressed, st, tail[..64], last);
      out := ProcessBlock(out, tail[..64]);
      n := 0;
    } else {
      last := rest + [0x80] + Zeros(55 - |rest|) + lengthBytes;
      FoldOne(Compressed, st, last);
    }
    ZeroFill(tail, n, 56);
    CopyIn(tail, 56, lengthBytes);
    assert tail[..64] == last;
    out := ProcessBlock(out, tail[..64]);
  }
}
