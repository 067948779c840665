/** The Blowfish object: one schedule for each direction over common initial tables. */
module BlowfishCipher {
  import opened Endian
  import opened Blowfish
  import opened KeyExpansion
  import opened Ofb

  class Cipher {
    const pi: Schedule
    var encodeKey: Schedule
    var decodeKey: Schedule

    constructor (pi: Schedule)
      ensures this.pi == pi
    {
      this.pi := pi;
      encodeKey := pi;
      decodeKey := pi;
    }

    method SetEncodeKey(key: Bytes)
      requires |key| > 0
      modifies this
      ensures encodeKey == Expanded(pi, key) && decodeKey == old(decodeKey)
    {
      encodeKey := ExpandKey(pi, key);
    }

    method SetDecodeKey(key: Bytes)
      requires |key| > 0
      modifies this
      ensures decodeKey == Expanded(pi, key) && encodeKey == old(encodeKey)
    {
      decodeKey := ExpandKey(pi, key);
    }

    /** Encryption of one block under the encode schedule. */
    method EncryptOne(block: Block) returns (out: Block)
      ensures encodeKey == decodeKey ==> EncryptedBlock(Reversed(decodeKey), out) == block
      ensures out == EncryptedBlock(encodeKey, block)
    {
      out := EncryptBlock(encodeKey, block);
      BlockRoundTrip(encodeKey, block);
    }

    /** Decryption of one block under the decode schedule. */
    method DecryptOne(block: Block) returns (out: Block)
      ensures encodeKey == decodeKey ==> EncryptedBlock(encodeKey, out) == block
      ensures out == EncryptedBlock(Reversed(decodeKey), block)
    {
      out := DecryptBlock(decodeKey, block);
      BlockRoundTrip(decodeKey, block);
    }

    method EncodeStream(stream: Ofb64, buffer: array<byte>, lo: nat, hi: nat)
      requires stream.Valid() && lo <= hi <= buffer.Length
      modifies stream, buffer
      ensures stream.Valid() && stream.View() == Advanced(encodeKey, old(stream.View()), hi - lo)
      ensures buffer[..lo] == old(buffer[..lo]) && buffer[hi..] == old(buffer[hi..])
      ensures buffer[lo..hi] == Processed(encodeKey, old(stream.View()), old(buffer[lo..hi]))
    {
      stream.Process(encodeKey, buffer, lo, hi);
    }

    method DecodeStream(stream: Ofb64, buffer: array<byte>, lo: nat, hi: nat)
      requires stream.Valid() && lo <= hi <= buffer.Length
      modifies stream, buffer
      ensures stream.Valid() && stream.View() == Advanced(decodeKey, old(stream.View()), hi - lo)
      ensures buffer[..lo] == old(buffer[..lo]) && buffer[hi..] == old(buffer[hi..])
      ensures buffer[lo..hi] == Processed(decodeKey, old(stream.View()), old(buffer[lo..hi]))
    {
      stream.Process(decodeKey, buffer, lo, hi);
    }
  }
}
