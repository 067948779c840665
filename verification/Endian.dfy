/** Bytes, fixed-width integers, and the byte-order helpers of the core library. */
module Endian {

  type byte = x: int | 0 <= x < 0x100
  type u16 = x: int | 0 <= x < 0x1_0000
  type u32 = x: int | 0 <= x < 0x1_0000_0000
  type Bytes = seq<byte>

  function Min(a: nat, b: nat): nat {
    if a <= b then a else b
  }

  function Zeros(n: nat): (b: Bytes)
    ensures |b| == n
  {
    seq(n, _ => 0)
  }

  // ------------------------------------------------------------------
  // Big-endian integers
  // ------------------------------------------------------------------

  function ReadU16be(b: Bytes): (v: u16)
    requires |b| >= 2
  {
    b[0] as int * 0x100 + b[1] as int
  }

  function WriteU16be(v: u16): (b: Bytes)
    ensures |b| == 2
  {
    [v / 0x100, v % 0x100]
  }

  function ReadU32be(b: Bytes): (v: u32)
    requires |b| >= 4
  {
    ReadU16be(b[..2]) as int * 0x1_0000 + ReadU16be(b[2..4]) as int
  }

  function WriteU32be(v: u32): (b: Bytes)
    ensures |b| == 4
  {
    WriteU16be(v / 0x1_0000) + WriteU16be(v % 0x1_0000)
  }

  lemma ReadWriteU16(v: u16, rest: Bytes)
    ensures ReadU16be(WriteU16be(v) + rest) == v
  {
  }

  lemma WriteReadU16(b: Bytes)
    requires |b| >= 2
    ensures WriteU16be(ReadU16be(b)) == b[..2]
  {
  }

  lemma ReadWriteU32(v: u32, rest: Bytes)
    ensures ReadU32be(WriteU32be(v) + rest) == v
  {
    var b := WriteU32be(v) + rest;
    assert b[..2] == WriteU16be(v / 0x1_0000) + [];
    assert b[2..4] == WriteU16be(v % 0x1_0000) + [];
    ReadWriteU16(v / 0x1_0000, []);
    ReadWriteU16(v % 0x1_0000, []);
  }

  lemma WriteReadU32(b: Bytes)
    requires |b| >= 4
    ensures WriteU32be(ReadU32be(b)) == b[..4]
  {
    WriteReadU16(b[..2]);
    WriteReadU16(b[2..4]);
    assert ReadU32be(b) / 0x1_0000 == ReadU16be(b[..2]);
    assert b[..4] == b[..2] + b[2..4];
  }

  // ------------------------------------------------------------------
  // Bytes as numbers
  // ------------------------------------------------------------------

  /** A byte string read as one big-endian number. */
  function BigEndian(b: Bytes): nat {
    if b == [] then 0 else BigEndian(b[..|b| - 1]) * 0x100 + b[|b| - 1] as int
  }

  lemma BigEndianOfTwo(b: Bytes)
    requires |b| == 2
    ensures BigEndian(b) == ReadU16be(b)
  {
    assert b[..1][..0] == [];
    assert BigEndian(b[..1]) == b[0];
  }

  lemma BigEndianOfFour(b: Bytes)
    requires |b| == 4
    ensures BigEndian(b) == ReadU32be(b)
  {
    assert b[..3][..2] == b[..2] && b[..2][..1] == b[..1];
    assert BigEndian(b[..1]) == b[0];
    assert BigEndian(b[..2]) == ReadU16be(b[..2]);
  }

  lemma BigEndianOfThree(b: Bytes)
    requires |b| <= 3
    ensures BigEndian(b) < 0x100_0000
  {
    if |b| > 1 {
      assert BigEndian(b[..|b| - 1]) < 0x1_0000;
    }
  }

  // ------------------------------------------------------------------
  // Exclusive or
  // ------------------------------------------------------------------

  /** Bitwise exclusive or, lowest bit first. */
  function Xor(a: nat, b: nat): nat
    decreases a + b
  {
    if a == 0 then b
    else if b == 0 then a
    else (if a % 2 == b % 2 then 0 else 1) + 2 * Xor(a / 2, b / 2)
  }

  /** Exclusive or stays inside any power-of-two width both operands fit. */
  lemma {:induction false} XorWidth(a: nat, b: nat, bits: nat)
    requires a < Pow2(bits) && b < Pow2(bits)
    ensures Xor(a, b) < Pow2(bits)
  {
    if a == 0 || b == 0 {
    } else {
      XorWidth(a / 2, b / 2, bits - 1);
    }
  }

  function Pow2(n: nat): (r: nat)
    ensures r >= 1
  {
    if n == 0 then 1 else 2 * Pow2(n - 1)
  }

  lemma {:induction false} XorSelf(a: nat)
    ensures Xor(a, a) == 0
  {
    if a == 0 {
    } else {
      XorSelf(a / 2);
    }
  }

  /** The law every stream and Feistel step rests on: a mask applied twice cancels. */
  lemma {:induction false} XorCancel(a: nat, b: nat)
    ensures Xor(Xor(a, b), b) == a
    decreases a + b
  {
    if a == 0 {
      XorSelf(b);
    } else if b == 0 {
    } else {
      XorCancel(a / 2, b / 2);
      var x := Xor(a, b);
      assert x / 2 == Xor(a / 2, b / 2);
      if x == 0 {
        assert Xor(a / 2, b / 2) == 0 && b / 2 == a / 2;
      }
    }
  }

  lemma {:induction false} XorAssociates(a: nat, b: nat, c: nat)
    ensures Xor(Xor(a, b), c) == Xor(a, Xor(b, c))
    decreases a + b + c
  {
    if a == 0 || b == 0 || c == 0 {
    } else {
      XorAssociates(a / 2, b / 2, c / 2);
      XorParts(a, b);
      XorParts(b, c);
      XorParts(Xor(a, b), c);
      XorParts(a, Xor(b, c));
      SameParts(Xor(Xor(a, b), c), Xor(a, Xor(b, c)));
    }
  }

  lemma XorParts(a: nat, b: nat)
    ensures Xor(a, b) / 2 == Xor(a / 2, b / 2)
    ensures Xor(a, b) % 2 == if a % 2 == b % 2 then 0 else 1
  {
  }

  lemma SameParts(x: nat, y: nat)
    requires x / 2 == y / 2 && x % 2 == y % 2
    ensures x == y
  {
  }

  function XorByte(a: byte, b: byte): byte {
    XorWidth(a, b, 8);
    Xor(a, b)
  }

  function XorWord(a: u32, b: u32): u32 {
    Pow2At32();
    XorWidth(a, b, 32);
    Xor(a, b)
  }

  lemma Pow2At32()
    ensures Pow2(32) == 0x1_0000_0000
  {
    assert Pow2(8) == 256;
    assert Pow2(16) == 0x1_0000;
    assert Pow2(24) == 0x100_0000;
  }
}
