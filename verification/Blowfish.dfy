/** The Blowfish block cipher: a Feistel network of sixteen rounds, and its two directions. */
module Blowfish {
  import opened Endian

  datatype ScheduleData = Schedule(p: seq<u32>, s: seq<seq<u32>>)

  predicate WellSized(k: ScheduleData) {
    |k.p| == 18 && |k.s| == 4 && forall i :: 0 <= i < 4 ==> |k.s[i]| == 256
  }

  type Schedule = k: ScheduleData | WellSized(k)
    witness Schedule(seq(18, _ => 0), seq(4, _ => seq(256, _ => 0)))

  type Block = b: Bytes | |b| == 8
    witness [0, 0, 0, 0, 0, 0, 0, 0]

  const ZERO_BLOCK: Block := [0, 0, 0, 0, 0, 0, 0, 0]

  // ------------------------------------------------------------------
  // The Feistel network
  // ------------------------------------------------------------------

  function RoundFunction(x: u32, key: Schedule): u32 {
    var a, b, c, d := x / 0x100_0000, x / 0x1_0000 % 0x100, x / 0x100 % 0x100, x % 0x100;
    var y: u32 := (key.s[0][a] as int + key.s[1][b] as int) % 0x1_0000_0000;
    (XorWord(y, key.s[2][c]) as int + key.s[3][d] as int) % 0x1_0000_0000
  }

  /** The word pair after the first `n` rounds, each ending in a swap. */
  function Rounds(l: u32, r: u32, key: Schedule, n: nat): (u32, u32)
    requires n <= 16
  {
    if n == 0 then (l, r)
    else
      var (a, b) := Rounds(l, r, key, n - 1);
      var x := XorWord(a, key.p[n - 1]);
      (XorWord(RoundFunction(x, key), b), x)
  }

  function Encrypted(l: u32, r: u32, key: Schedule): (u32, u32) {
    var (a, b) := Rounds(l, r, key, 16);
    (XorWord(b, key.p[17]), XorWord(a, key.p[16]))
  }

  /** The same schedule with its round keys in the opposite order. */
  function Reversed(key: Schedule): (k: Schedule)
    ensures forall i :: 0 <= i < 18 ==> k.p[i] == key.p[17 - i]
    ensures k.s == key.s
  {
    key.(p := seq(18, i requires 0 <= i < 18 => key.p[17 - i]))
  }

  method EncryptWords(l0: u32, r0: u32, key: Schedule) returns (l: u32, r: u32)
    ensures (l, r) == Encrypted(l0, r0, key)
  {
    l, r := l0, r0;
    for i := 0 to 16
      invariant (l, r) == Rounds(l0, r0, key, i)
    {
      l := XorWord(l, key.p[i]);
      r := XorWord(RoundFunction(l, key), r);
      l, r := r, l;
    }
    l, r := r, l;
    r := XorWord(r, key.p[16]);
    l := XorWord(l, key.p[17]);
  }

  /** Decryption walks the round keys downwards: it is encryption under the reversed schedule. */
  method DecryptWords(l0: u32, r0: u32, key: Schedule) returns (l: u32, r: u32)
    ensures (l, r) == Encrypted(l0, r0, Reversed(key))
  {
    l, r := l0, r0;
    var i := 17;
    while i > 1
      invariant 1 <= i <= 17
      invariant (l, r) == Rounds(l0, r0, Reversed(key), 17 - i)
    {
      l := XorWord(l, key.p[i]);
      r := XorWord(RoundFunction(l, key), r);
      l, r := r, l;
      assert Reversed(key).p[17 - i] == key.p[i];
      RoundFunctionIgnoresP(l, r, key);
      i := i - 1;
    }
    l, r := r, l;
    r := XorWord(r, key.p[1]);
    l := XorWord(l, key.p[0]);
  }

  lemma RoundFunctionIgnoresP(l: u32, r: u32, key: Schedule)
    ensures RoundFunction(r, Reversed(key)) == RoundFunction(r, key)
  {
  }

  /** A masked Feistel half comes back: f ^ ((f ^ b) ^ p) == b ^ p. */
  lemma XorCollapse(f: u32, b: u32, p: u32)
    ensures XorWord(f, XorWord(XorWord(f, b), p)) == XorWord(b, p)
  {
    XorAssociates(f, b, p);
    XorAssociates(f, f, XorWord(b, p));
    XorSelf(f);
  }

  /** Undoing `m` rounds of a ciphertext leaves the masked state before the last `m` rounds. */
  lemma {:induction false} UnwindRounds(l: u32, r: u32, key: Schedule, m: nat)
    requires m <= 16
    ensures var (cl, cr) := Encrypted(l, r, key);
            var (a, b) := Rounds(l, r, key, 16 - m);
            Rounds(cl, cr, Reversed(key), m) == (XorWord(b, key.p[17 - m]), XorWord(a, key.p[16 - m]))
  {
    if m == 0 {
    } else {
      UnwindRounds(l, r, key, m - 1);
      var (a, b) := Rounds(l, r, key, 16 - m);
      var x := XorWord(a, key.p[16 - m]);
      var f := RoundFunction(x, key);
      assert Rounds(l, r, key, 16 - m + 1) == (XorWord(f, b), x);
      XorCancel(x, key.p[18 - m]);
      RoundFunctionIgnoresP(0, x, key);
      XorCollapse(f, b, key.p[17 - m]);
    }
  }

  lemma DecryptUndoesEncrypt(l: u32, r: u32, key: Schedule)
    ensures var (cl, cr) := Encrypted(l, r, key);
            Encrypted(cl, cr, Reversed(key)) == (l, r)
  {
    UnwindRounds(l, r, key, 16);
    XorCancel(l, key.p[0]);
    XorCancel(r, key.p[1]);
  }

  lemma EncryptUndoesDecrypt(l: u32, r: u32, key: Schedule)
    ensures var (pl, pr) := Encrypted(l, r, Reversed(key));
            Encrypted(pl, pr, key) == (l, r)
  {
    DecryptUndoesEncrypt(l, r, Reversed(key));
    assert Reversed(Reversed(key)).p == key.p;
  }

  /**
   * One round: the left word takes in the round key; its four bytes, highest first, choose one word of
   * each S-box, which are added, masked, added; that masks the right word, and the two change places.
   */
  ghost predicate IsRound(key: Schedule, roundKey: u32, before: (u32, u32), after: (u32, u32)) {
    var x := XorWord(before.0, roundKey);
    var b := WriteU32be(x);
    var sum: u32 := (key.s[0][b[0]] as int + key.s[1][b[1]] as int) % 0x1_0000_0000;
    var f: u32 := (XorWord(sum, key.s[2][b[2]]) as int + key.s[3][b[3]] as int) % 0x1_0000_0000;
    after == (XorWord(f, before.1), x)
  }

  /** Sixteen such rounds under the first sixteen round keys, the last swap undone under the last two. */
  lemma EncryptionIsFeistel(l: u32, r: u32, key: Schedule) returns (xs: seq<(u32, u32)>)
    ensures |xs| == 17 && xs[0] == (l, r)
    ensures forall i :: 0 <= i < 16 ==> IsRound(key, key.p[i], xs[i], xs[i + 1])
    ensures Encrypted(l, r, key) == (XorWord(xs[16].1, key.p[17]), XorWord(xs[16].0, key.p[16]))
  {
    hide XorWord;
    xs := seq(17, i requires 0 <= i <= 16 => Rounds(l, r, key, i));
    forall i | 0 <= i < 16 ensures IsRound(key, key.p[i], xs[i], xs[i + 1]) {
      RoundStep(l, r, key, i);
      RoundFunctionIs(XorWord(xs[i].0, key.p[i]), key);
    }
  }

  lemma RoundStep(l: u32, r: u32, key: Schedule, i: nat)
    requires i < 16
    ensures var (a, b) := Rounds(l, r, key, i);
            var x := XorWord(a, key.p[i]);
            Rounds(l, r, key, i + 1) == (XorWord(RoundFunction(x, key), b), x)
  {
    hide XorWord, RoundFunction;
  }

  lemma RoundFunctionIs(x: u32, key: Schedule)
    ensures var b := WriteU32be(x);
            var sum: u32 := (key.s[0][b[0]] as int + key.s[1][b[1]] as int) % 0x1_0000_0000;
            RoundFunction(x, key) == (XorWord(sum, key.s[2][b[2]]) as int + key.s[3][b[3]] as int) % 0x1_0000_0000
  {
    hide XorWord, WriteU32be;
    BytesOfWord(x);
  }

  lemma BytesOfWord(x: u32)
    ensures WriteU32be(x) == [x / 0x100_0000, x / 0x1_0000 % 0x100, x / 0x100 % 0x100, x % 0x100]
  {
    var high, low := x / 0x1_0000, x % 0x1_0000;
    assert high / 0x100 == x / 0x100_0000;
    assert low / 0x100 == x / 0x100 % 0x100;
    assert low % 0x100 == x % 0x100;
  }

  // ------------------------------------------------------------------
  // Blocks of bytes
  // ------------------------------------------------------------------

  function EncryptedBlock(key: Schedule, block: Block): Block {
    var (l, r) := Encrypted(ReadU32be(block[..4]), ReadU32be(block[4..]), key);
    WriteU32be(l) + WriteU32be(r)
  }

  method EncryptBlock(key: Schedule, block: Block) returns (out: Block)
    ensures out == EncryptedBlock(key, block)
  {
    var l, r := EncryptWords(ReadU32be(block[..4]), ReadU32be(block[4..]), key);
    out := WriteU32be(l) + WriteU32be(r);
  }

  method DecryptBlock(key: Schedule, block: Block) returns (out: Block)
    ensures out == EncryptedBlock(Reversed(key), block)
  {
    var l, r := DecryptWords(ReadU32be(block[..4]), ReadU32be(block[4..]), key);
    out := WriteU32be(l) + WriteU32be(r);
  }

  /** A block is two big-endian words, the left one first, before and after. */
  lemma BlockIsTwoWords(key: Schedule, l: u32, r: u32)
    ensures var (cl, cr) := Encrypted(l, r, key);
            EncryptedBlock(key, WriteU32be(l) + WriteU32be(r)) == WriteU32be(cl) + WriteU32be(cr)
  {
    hide ReadU32be, WriteU32be, Encrypted;
    var block := WriteU32be(l) + WriteU32be(r);
    assert block[..4] == WriteU32be(l) + [] && block[4..] == WriteU32be(r) + [];
    ReadWriteU32(l, []);
    ReadWriteU32(r, []);
  }

  lemma BlockRoundTrip(key: Schedule, block: Block)
    ensures EncryptedBlock(Reversed(key), EncryptedBlock(key, block)) == block
    ensures EncryptedBlock(key, EncryptedBlock(Reversed(key), block)) == block
  {
    HalvesRoundTrip(key, Reversed(key), block);
    DecryptUndoesEncrypt(ReadU32be(block[..4]), ReadU32be(block[4..]), key);
    HalvesRoundTrip(Reversed(key), key, block);
    EncryptUndoesDecrypt(ReadU32be(block[..4]), ReadU32be(block[4..]), key);
  }

  lemma HalvesRoundTrip(first: Schedule, second: Schedule, block: Block)
    ensures var (l, r) := Encrypted(ReadU32be(block[..4]), ReadU32be(block[4..]), first);
            Encrypted(l, r, second) == (ReadU32be(block[..4]), ReadU32be(block[4..])) ==>
              EncryptedBlock(second, EncryptedBlock(first, block)) == block
  {
    var (l, r) := Encrypted(ReadU32be(block[..4]), ReadU32be(block[4..]), first);
    var out := WriteU32be(l) + WriteU32be(r);
    assert out[..4] == WriteU32be(l) + [] && out[4..] == WriteU32be(r) + [];
    ReadWriteU32(l, []);
    ReadWriteU32(r, []);
    WriteReadU32(block[..4]);
    WriteReadU32(block[4..]);
    assert block == block[..4] + block[4..];
  }
}
