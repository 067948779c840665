/** The OFB-64 byte stream over Blowfish (section 6.4 of NIST SP 800-38A), zero initial vector. */
module Ofb {
  import opened Endian
  import opened Blowfish

  /** The feedback block and the next byte of it to use; it outlives both buffers and keys. */
  datatype StreamData = Stream(iv: Block, offset: nat)

  type Stream = s: StreamData | s.offset < 8
    witness Stream(ZERO_BLOCK, 0)

  const FRESH: Stream := Stream(ZERO_BLOCK, 0)

  function Feedback(key: Schedule, s: Stream): Block {
    if s.offset == 0 then EncryptedBlock(key, s.iv) else s.iv
  }

  function KeyByte(key: Schedule, s: Stream): byte {
    Feedback(key, s)[s.offset]
  }

  function Tick(key: Schedule, s: Stream): Stream {
    Stream(Feedback(key, s), (s.offset + 1) % 8)
  }

  /** The stream after `n` bytes. */
  function Advanced(key: Schedule, s: Stream, n: nat): Stream {
    if n == 0 then s else Tick(key, Advanced(key, s, n - 1))
  }

  /** The next `n` keystream bytes. */
  function Keystream(key: Schedule, s: Stream, n: nat): (k: Bytes)
    ensures |k| == n
  {
    if n == 0 then [] else Keystream(key, s, n - 1) + [KeyByte(key, Advanced(key, s, n - 1))]
  }

  function XorBytes(data: Bytes, mask: Bytes): (r: Bytes)
    requires |data| == |mask|
    ensures |r| == |data|
    ensures forall i :: 0 <= i < |r| ==> r[i] == XorByte(data[i], mask[i])
  {
    seq(|data|, i requires 0 <= i < |data| => XorByte(data[i], mask[i]))
  }

  function Processed(key: Schedule, s: Stream, data: Bytes): (r: Bytes)
    ensures |r| == |data|
  {
    XorBytes(data, Keystream(key, s, |data|))
  }

  // ------------------------------------------------------------------
  // Laws of the stream
  // ------------------------------------------------------------------

  lemma {:induction false} AdvanceTwice(key: Schedule, s: Stream, m: nat, n: nat)
    ensures Advanced(key, Advanced(key, s, m), n) == Advanced(key, s, m + n)
  {
    hide EncryptedBlock, Tick;
    if n == 0 {
    } else {
      AdvanceTwice(key, s, m, n - 1);
    }
  }

  lemma {:induction false} KeystreamSplits(key: Schedule, s: Stream, m: nat, n: nat)
    ensures Keystream(key, s, m + n) == Keystream(key, s, m) + Keystream(key, Advanced(key, s, m), n)
  {
    hide EncryptedBlock, Tick, KeyByte;
    if n == 0 {
    } else {
      KeystreamSplits(key, s, m, n - 1);
      AdvanceTwice(key, s, m, n - 1);
    }
  }

  /** Processing a ++ b is processing a and then b from the carried state. */
  lemma ProcessSplits(key: Schedule, s: Stream, a: Bytes, b: Bytes)
    ensures Processed(key, s, a + b) == Processed(key, s, a) + Processed(key, Advanced(key, s, |a|), b)
    ensures Advanced(key, s, |a + b|) == Advanced(key, Advanced(key, s, |a|), |b|)
  {
    hide EncryptedBlock, Advanced, Keystream, XorBytes, Feedback, KeyByte, XorByte;
    KeystreamSplits(key, s, |a|, |b|);
    AdvanceTwice(key, s, |a|, |b|);
    XorBytesSplits(a, b, Keystream(key, s, |a|), Keystream(key, Advanced(key, s, |a|), |b|));
  }

  lemma XorBytesSplits(a: Bytes, b: Bytes, m: Bytes, n: Bytes)
    requires |a| == |m| && |b| == |n|
    ensures XorBytes(a + b, m + n) == XorBytes(a, m) + XorBytes(b, n)
  {
    hide XorByte;
  }

  /** Two passes from equal states cancel. */
  lemma ProcessCancels(key: Schedule, s: Stream, data: Bytes)
    ensures Processed(key, s, Processed(key, s, data)) == data
  {
    var mask := Keystream(key, s, |data|);
    forall i | 0 <= i < |data|
      ensures Processed(key, s, Processed(key, s, data))[i] == data[i]
    {
      XorCancel(data[i], mask[i]);
    }
  }

  lemma {:induction false} KeystreamAt(key: Schedule, s: Stream, n: nat, i: nat)
    requires i < n
    ensures Keystream(key, s, n)[i] == KeyByte(key, Advanced(key, s, i))
  {
    if i == n - 1 {
    } else {
      KeystreamAt(key, s, n - 1, i);
    }
  }

  /** The zero block encrypted `k` times over. */
  function OutputBlock(key: Schedule, k: nat): Block {
    if k == 0 then ZERO_BLOCK else EncryptedBlock(key, OutputBlock(key, k - 1))
  }

  lemma {:induction false} FreshStreamAt(key: Schedule, q: nat, r: nat)
    requires r < 8
    ensures Tick(key, Advanced(key, FRESH, 8 * q + r)) == Stream(OutputBlock(key, q + 1), (r + 1) % 8)
    ensures Feedback(key, Advanced(key, FRESH, 8 * q + r)) == OutputBlock(key, q + 1)
    ensures Advanced(key, FRESH, 8 * q + r).offset == r
    decreases q, r
  {
    hide EncryptedBlock;
    if q == 0 && r == 0 {
    } else if r == 0 {
      FreshStreamAt(key, q - 1, 7);
    } else {
      FreshStreamAt(key, q, r - 1);
    }
  }

  /** Keystream byte 8q + r of a fresh stream is byte r of the (q + 1)-fold encryption of zero. */
  lemma KeystreamIsOutputFeedback(key: Schedule, n: nat, q: nat, r: nat)
    requires r < 8 && 8 * q + r < n
    ensures Keystream(key, FRESH, n)[8 * q + r] == OutputBlock(key, q + 1)[r]
  {
    hide EncryptedBlock, Keystream, OutputBlock, Tick;
    KeystreamAt(key, FRESH, n, 8 * q + r);
    FreshStreamAt(key, q, r);
  }

  lemma AdvanceStarts(key: Schedule, s: Stream)
    ensures Advanced(key, s, 0) == s
  {
  }

  lemma AdvanceOnce(key: Schedule, s: Stream, n: nat)
    ensures Advanced(key, s, n + 1) == Tick(key, Advanced(key, s, n))
  {
    hide Tick;
  }

  lemma ProcessedAre(key: Schedule, s: Stream, data: Bytes, out: Bytes)
    requires |out| == |data|
    requires forall i :: 0 <= i < |data| ==> out[i] == XorByte(data[i], Keystream(key, s, |data|)[i])
    ensures out == Processed(key, s, data)
  {
    hide Keystream, XorByte;
  }

  // ------------------------------------------------------------------
  // The stream object
  // ------------------------------------------------------------------

  class Ofb64 {
    var iv: Block
    var offset: nat

    ghost predicate Valid()
      reads this
    {
      offset < 8
    }

    ghost function View(): Stream
      requires Valid()
      reads this
    {
      Stream(iv, offset)
    }

    constructor ()
      ensures Valid() && View() == FRESH
    {
      iv, offset := ZERO_BLOCK, 0;
    }

    method Reset()
      modifies this
      ensures Valid() && View() == FRESH
    {
      iv, offset := ZERO_BLOCK, 0;
    }

    /** Masks buffer[lo..hi] in place. */
    method Process(key: Schedule, buffer: array<byte>, lo: nat, hi: nat)
      requires Valid() && lo <= hi <= buffer.Length
      modifies this, buffer
      ensures Valid() && View() == Advanced(key, old(View()), hi - lo)
      ensures buffer[..lo] == old(buffer[..lo]) && buffer[hi..] == old(buffer[hi..])
      ensures buffer[lo..hi] == Processed(key, old(View()), old(buffer[lo..hi]))
    {
      hide EncryptedBlock, XorByte, Keystream, OutputBlock, Advanced, Processed;
      ghost var start, was := View(), buffer[..];
      AdvanceStarts(key, start);
      for i := lo to hi
        invariant Valid() && View() == Advanced(key, start, i - lo)
        invariant forall k :: 0 <= k < buffer.Length && !(lo <= k < i) ==> buffer[k] == was[k]
        invariant forall k :: lo <= k < i ==> buffer[k] == XorByte(was[k], Keystream(key, start, hi - lo)[k - lo])
      {
        KeystreamAt(key, start, hi - lo, i - lo);
        AdvanceOnce(key, start, i - lo);
        if offset == 0 {
          iv := EncryptBlock(key, iv);
        }
        buffer[i] := XorByte(buffer[i], iv[offset]);
        offset := (offset + 1) % 8;
      }
      ProcessedAre(key, start, was[lo..hi], buffer[lo..hi]);
    }
  }
}
