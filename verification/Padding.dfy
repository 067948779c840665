/** What both digests share: 64-byte blocks, the padding rule, and the fold over padded blocks. */
module Padding {
  import opened Endian

  type Block64 = b: Bytes | |b| == 64
    witness Zeros(64)

  /** `n` shifted right by `i` bytes. */
  function Shifted(n: nat, i: nat): nat {
    if i == 0 then n else Shifted(n, i - 1) / 0x100
  }

  function LittleBytes(n: nat): (b: Bytes)
    ensures |b| == 8
  {
    seq(8, i requires 0 <= i < 8 => Shifted(n, i) % 0x100)
  }

  function BigBytes(n: nat): (b: Bytes)
    ensures |b| == 8
  {
    seq(8, i requires 0 <= i < 8 => Shifted(n, 7 - i) % 0x100)
  }

  /** The bit length in 64 bits, as both digests append it. */
  function BitLength(size: nat): nat {
    size * 8 % 0x1_0000_0000_0000_0000
  }

  function LengthBytes(size: nat, little: bool): (b: Bytes)
    ensures |b| == 8
  {
    if little then LittleBytes(BitLength(size)) else BigBytes(BitLength(size))
  }

  /** How many zeros bring `size` bytes and the marker to 56 modulo 64. */
  function ZeroCount(size: nat): (k: nat)
    ensures (size + 1 + k) % 64 == 56 && k < 64
  {
    (119 - size % 64) % 64
  }

  function Suffix(size: nat, little: bool): Bytes {
    [0x80] + Zeros(ZeroCount(size)) + LengthBytes(size, little)
  }

  function Padded(message: Bytes, little: bool): Bytes {
    message + Suffix(|message|, little)
  }

  lemma PaddedIsBlocks(message: Bytes, little: bool)
    ensures |Padded(message, little)| % 64 == 0
  {
    hide LengthBytes, ZeroCount;
    assert |Padded(message, little)| == |message| + 1 + ZeroCount(|message|) + 8;
  }

  lemma {:induction false} ShiftedLoses(m: nat, n: nat, i: nat)
    requires forall j :: 0 <= j < i ==> Shifted(m, j) % 0x100 == Shifted(n, j) % 0x100
    requires Shifted(m, i) == Shifted(n, i)
    ensures m == n
  {
    if i == 0 {
    } else {
      assert Shifted(m, i - 1) == Shifted(n, i - 1);
      ShiftedLoses(m, n, i - 1);
    }
  }

  lemma ShiftedOut(n: nat)
    requires n < 0x1_0000_0000_0000_0000
    ensures Shifted(n, 8) == 0
  {
    assert Shifted(n, 1) < 0x100_0000_0000_0000;
    assert Shifted(n, 2) < 0x1_0000_0000_0000;
    assert Shifted(n, 3) < 0x100_0000_0000;
    assert Shifted(n, 4) < 0x1_0000_0000;
    assert Shifted(n, 5) < 0x100_0000;
    assert Shifted(n, 6) < 0x1_0000;
    assert Shifted(n, 7) < 0x100;
  }

  lemma {:induction false} BigBytesFront(n: nat, m: nat)
    requires n < 0x1_0000_0000_0000_0000 && m <= 8
    ensures BigEndian(BigBytes(n)[..m]) == Shifted(n, 8 - m)
  {
    if m == 0 {
      ShiftedOut(n);
    } else {
      BigBytesFront(n, m - 1);
      assert BigBytes(n)[..m][..m - 1] == BigBytes(n)[..m - 1];
    }
  }

  /** The length bytes are the bit length, highest byte first for one digest and last for the other. */
  lemma LengthBytesAreTheLength(size: nat)
    ensures BigEndian(LengthBytes(size, false)) == size * 8 % 0x1_0000_0000_0000_0000
    ensures forall i :: 0 <= i < 8 ==> LengthBytes(size, true)[i] == LengthBytes(size, false)[7 - i]
  {
    hide Shifted, BigEndian;
    BigBytesFront(BitLength(size), 8);
    assert BigBytes(BitLength(size))[..8] == BigBytes(BitLength(size));
    assert Shifted(BitLength(size), 0) == BitLength(size) by { ShiftedNone(BitLength(size)); }
  }

  lemma ShiftedNone(n: nat)
    ensures Shifted(n, 0) == n
  {
  }

  /** Padding is the message, one bit, as few zero bytes as reach 56 modulo 64, and the length bytes. */
  lemma PaddedIs(message: Bytes, little: bool) returns (zeros: nat)
    ensures Padded(message, little) == message + [0x80] + Zeros(zeros) + LengthBytes(|message|, little)
    ensures zeros < 64 && (|message| + 1 + zeros) % 64 == 56
  {
    hide LengthBytes, ZeroCount;
    zeros := ZeroCount(|message|);
  }

  lemma LengthBytesInjective(m: nat, n: nat, little: bool)
    requires m < 0x2000_0000_0000_0000 && n < 0x2000_0000_0000_0000
    requires LengthBytes(m, little) == LengthBytes(n, little)
    ensures m == n
  {
    hide Shifted;
    var x, y := BitLength(m), BitLength(n);
    forall j | 0 <= j < 8
      ensures Shifted(x, j) % 0x100 == Shifted(y, j) % 0x100
    {
      if little {
        assert LittleBytes(x)[j] == LittleBytes(y)[j];
      } else {
        assert BigBytes(x)[7 - j] == BigBytes(y)[7 - j];
      }
    }
    ShiftedOut(x);
    ShiftedOut(y);
    ShiftedLoses(x, y, 8);
  }

  /** Below 2^61 bytes, different messages never pad to the same blocks. */
  lemma PaddingIsInjective(a: Bytes, b: Bytes, little: bool)
    requires |a| < 0x2000_0000_0000_0000 && |b| < 0x2000_0000_0000_0000
    requires Padded(a, little) == Padded(b, little)
    ensures a == b
  {
    hide LengthBytes, ZeroCount;
    var p, q := Padded(a, little), Padded(b, little);
    assert p[|p| - 8..] == LengthBytes(|a|, little);
    assert q[|q| - 8..] == LengthBytes(|b|, little);
    LengthBytesInjective(|a|, |b|, little);
    assert p[..|a|] == a && q[..|b|] == b;
  }

  /** The state after all whole blocks of some data. */
  function Folded<S>(f: (S, Block64) -> S, s: S, data: Bytes): S {
    if |data| < 64 then s else Folded(f, f(s, data[..64]), data[64..])
  }

  /** The last one or two blocks: less than a block of message, then the suffix. */
  lemma TailShape(rest: Bytes, size: nat, little: bool)
    requires |rest| < 64 && size % 64 == |rest|
    ensures var tail := rest + Suffix(size, little);
            if |rest| < 56 then tail == rest + [0x80] + Zeros(55 - |rest|) + LengthBytes(size, little)
            else tail == (rest + [0x80] + Zeros(63 - |rest|)) + (Zeros(56) + LengthBytes(size, little))
  {
    hide LengthBytes;
    assert ZeroCount(size) == if |rest| < 56 then 55 - |rest| else 119 - |rest|;
  }

  lemma FoldOne<S>(f: (S, Block64) -> S, s: S, block: Block64)
    ensures Folded(f, s, block) == f(s, block)
  {
    assert block[..64] == block;
  }

  lemma FoldTwo<S>(f: (S, Block64) -> S, s: S, first: Block64, second: Block64)
    ensures Folded(f, s, first + second) == f(f(s, first), second)
  {
    var both := first + second;
    assert both[..64] == first && both[64..] == second;
    FoldOne(f, f(s, first), second);
  }

  lemma FoldStep<S>(f: (S, Block64) -> S, s: S, rest: Bytes, suffix: Bytes)
    requires |rest| >= 64
    ensures Folded(f, s, rest + suffix) == Folded(f, f(s, rest[..64]), rest[64..] + suffix)
  {
    assert (rest + suffix)[..64] == rest[..64] && (rest + suffix)[64..] == rest[64..] + suffix;
  }

  method ZeroFill(tail: array<byte>, from: nat, to: nat)
    requires from <= to <= tail.Length
    modifies tail
    ensures forall i :: from <= i < to ==> tail[i] == 0
    ensures forall i :: 0 <= i < tail.Length && !(from <= i < to) ==> tail[i] == old(tail[i])
  {
    for n := from to to
      invariant forall i :: from <= i < n ==> tail[i] == 0
      invariant forall i :: 0 <= i < tail.Length && !(from <= i < n) ==> tail[i] == old(tail[i])
    {
      tail[n] := 0;
    }
  }

  method CopyIn(tail: array<byte>, at: nat, bytes: Bytes)
    requires at + |bytes| <= tail.Length
    modifies tail
    ensures forall i :: 0 <= i < |bytes| ==> tail[at + i] == bytes[i]
    ensures forall i :: 0 <= i < tail.Length && !(at <= i < at + |bytes|) ==> tail[i] == old(tail[i])
  {
    for n := 0 to |bytes|
      invariant forall i :: 0 <= i < n ==> tail[at + i] == bytes[i]
      invariant forall i :: 0 <= i < tail.Length && !(at <= i < at + n) ==> tail[i] == old(tail[i])
    {
      tail[at + n] := bytes[n];
    }
  }
}
