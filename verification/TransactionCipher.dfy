/** The encrypted-transaction cipher: two keyed OFB streams a side, re-keyed in mid-message. */
module TransactionCipher {
  import opened Endian
  import opened Hmac
  import opened Wire
  import Blowfish
  import BlowfishCipher
  import KeyExpansion
  import Ofb

  /** What both ends share: the digest, the cipher's initial tables, and the session key. */
  datatype Params = Params(hash: Hash, pi: Blowfish.Schedule, session: Bytes)

  /** One direction of one side: its key, the schedule expanded from it, and its stream. */
  datatype Dir = Dir(key: Bytes, schedule: Blowfish.Schedule, stream: Ofb.Stream)

  function Opened(p: Params, key: Bytes): Dir
    requires |key| > 0
  {
    Dir(key, KeyExpansion.Expanded(p.pi, key), Ofb.FRESH)
  }

  /** The same direction under the key permuted `flag` times; the stream is carried over. */
  function Rekeyed(p: Params, d: Dir, flag: nat): (r: Dir)
    requires p.hash.Valid() && flag > 0
  {
    var key := Permuted(p.hash, d.key, p.session, flag);
    Dir(key, KeyExpansion.Expanded(p.pi, key), d.stream)
  }

  /** One pass of a direction's stream over some bytes: the direction after, and the bytes after. */
  function Passed(d: Dir, data: Bytes): (r: (Dir, Bytes))
    ensures |r.1| == |data|
  {
    (d.(stream := Ofb.Advanced(d.schedule, d.stream, |data|)), Ofb.Processed(d.schedule, d.stream, data))
  }

  /** Payload under a flag: with one, only the first two bytes use the key in force. */
  function PassedData(p: Params, d: Dir, data: Bytes, flag: byte): (r: (Dir, Bytes))
    requires p.hash.Valid()
    ensures |r.1| == |data|
  {
    if data == [] then (d, [])
    else if flag == 0 then Passed(d, data)
    else
      var n := Min(2, |data|);
      var (d1, prefix) := Passed(d, data[..n]);
      var (d2, rest) := Passed(Rekeyed(p, d1, flag), data[n..]);
      (d2, prefix + rest)
  }

  /** Two passes over the same bytes from equal directions cancel and leave equal directions. */
  lemma PassCancels(d: Dir, data: Bytes)
    ensures Passed(d, Passed(d, data).1) == (Passed(d, data).0, data)
  {
    hide Ofb.Advanced, Ofb.Processed;
    Ofb.ProcessCancels(d.schedule, d.stream, data);
  }

  lemma PassDataCancels(p: Params, d: Dir, data: Bytes, flag: byte)
    requires p.hash.Valid()
    ensures PassedData(p, d, PassedData(p, d, data, flag).1, flag) == (PassedData(p, d, data, flag).0, data)
  {
    hide Passed, Rekeyed;
    var coded := PassedData(p, d, data, flag).1;
    if data == [] || flag == 0 {
      PassCancels(d, data);
    } else {
      var n := Min(2, |data|);
      var (d1, prefix) := Passed(d, data[..n]);
      var (d2, rest) := Passed(Rekeyed(p, d1, flag), data[n..]);
      assert coded[..n] == prefix && coded[n..] == rest;
      PassCancels(d, data[..n]);
      PassCancels(Rekeyed(p, d1, flag), data[n..]);
      assert data == data[..n] + data[n..];
    }
  }

  // ------------------------------------------------------------------
  // Which byte is coded under which key
  // ------------------------------------------------------------------

  /** Every byte is masked with its keystream byte, and the stream stands behind the last. */
  ghost predicate Masked(d: Dir, plain: Bytes, after: Ofb.Stream, coded: Bytes) {
    && |coded| == |plain|
    && (forall i :: 0 <= i < |plain| ==>
          coded[i] == XorByte(plain[i], Ofb.Keystream(d.schedule, d.stream, |plain|)[i]))
    && after == Ofb.Advanced(d.schedule, d.stream, |plain|)
  }

  /**
   * Payload byte by byte. Under flag 0, and when there is none, one schedule masks it all. Under any
   * other flag bytes 0 and 1 are masked under the schedule in force, and byte 2 and all behind it under
   * the schedule of the key permuted `flag` times, by the stream as those two bytes left it.
   */
  ghost predicate MaskedData(p: Params, d: Dir, plain: Bytes, flag: byte, after: Dir, coded: Bytes)
    requires p.hash.Valid()
  {
    if flag == 0 || plain == [] then
      Masked(d, plain, after.stream, coded) && after.key == d.key && after.schedule == d.schedule
    else
      && after.key == Permuted(p.hash, d.key, p.session, flag)
      && after.schedule == KeyExpansion.Expanded(p.pi, after.key)
      && if |plain| == 1 then Masked(d, plain, after.stream, coded)
         else
           var two := Ofb.Advanced(d.schedule, d.stream, 2);
           && |coded| == |plain|
           && Masked(d, plain[..2], two, coded[..2])
           && Masked(Dir(after.key, after.schedule, two), plain[2..], after.stream, coded[2..])
  }

  lemma PassMasks(d: Dir, data: Bytes)
    ensures var (d', coded) := Passed(d, data);
            Masked(d, data, d'.stream, coded) && d'.key == d.key && d'.schedule == d.schedule
  {
    hide Ofb.Keystream, Ofb.Advanced, XorByte;
  }

  /** Under a flag the payload is masked in two stretches, whichever way it runs. */
  lemma PassDataMasks(p: Params, d: Dir, data: Bytes, flag: byte)
    requires p.hash.Valid()
    ensures var (d', coded) := PassedData(p, d, data, flag);
            MaskedData(p, d, data, flag, d', coded)
  {
    hide Masked, Ofb.Advanced, KeyExpansion.Expanded, Permuted, Passed;
    PassMasks(d, data);
    if data == [] {
      assert Passed(d, []) == (d, []) by { NothingPasses(d); }
    } else if flag != 0 {
      var n := Min(2, |data|);
      var (d1, prefix) := Passed(d, data[..n]);
      var d2 := Rekeyed(p, d1, flag);
      PassMasks(d, data[..n]);
      PassMasks(d2, data[n..]);
      PassedAdvances(d, data[..n]);
      if n == 1 {
        assert data[..1] == data && data[1..] == [];
        NothingPasses(d2);
        assert prefix + [] == prefix;
      }
    }
  }

  lemma NothingPasses(d: Dir)
    ensures Passed(d, []) == (d, [])
  {
  }

  lemma PassedAdvances(d: Dir, data: Bytes)
    ensures Passed(d, data).0 == d.(stream := Ofb.Advanced(d.schedule, d.stream, |data|))
  {
  }

  /** A direction once it masked the twenty bytes of a header. */
  ghost function AfterHeader(d: Dir): Dir {
    Dir(d.key, d.schedule, Ofb.Advanced(d.schedule, d.stream, HEADER_SIZE))
  }

  // ------------------------------------------------------------------
  // Whole messages
  // ------------------------------------------------------------------

  /** A 20-byte header with its payload, before or after encoding. */
  datatype PacketData = Packet(header: Bytes, data: Bytes)

  type Packet = m: PacketData | |m.header| == HEADER_SIZE
    witness Packet(Zeros(20), [])

  function Sealed(p: Params, d: Dir, m: Packet, flag: byte): (Dir, Packet)
    requires p.hash.Valid()
  {
    var (d1, header) := Passed(d, m.header);
    var (d2, data) := PassedData(p, d1, m.data, flag);
    (d2, Packet(header, data))
  }

  /** Decoding takes its flag from the header it has just decoded. */
  function Unsealed(p: Params, d: Dir, m: Packet): (Dir, Packet)
    requires p.hash.Valid()
  {
    var (d1, header) := Passed(d, m.header);
    var (d2, data) := PassedData(p, d1, m.data, header[0]);
    (d2, Packet(header, data))
  }

  /** A whole message byte by byte: the header under the schedule in force, the payload behind it. */
  lemma SealMasks(p: Params, d: Dir, m: Packet, flag: byte)
    requires p.hash.Valid()
    ensures var (d', coded) := Sealed(p, d, m, flag);
            && Masked(d, m.header, AfterHeader(d).stream, coded.header)
            && MaskedData(p, AfterHeader(d), m.data, flag, d', coded.data)
  {
    hide Masked, MaskedData, PassedData, Ofb.Advanced, Ofb.Processed;
    PassMasks(d, m.header);
    PassDataMasks(p, AfterHeader(d), m.data, flag);
  }

  lemma UnsealUndoesSeal(p: Params, d: Dir, m: Packet)
    requires p.hash.Valid()
    ensures var (d', coded) := Sealed(p, d, m, m.header[0]);
            Unsealed(p, d, coded) == (d', m)
  {
    hide Passed, PassedData;
    PassCancels(d, m.header);
    PassDataCancels(p, Passed(d, m.header).0, m.data, m.header[0]);
  }

  // ------------------------------------------------------------------
  // The cipher object
  // ------------------------------------------------------------------

  class TransactionCipher {
    const params: Params
    const cipher: BlowfishCipher.Cipher
    const encodeStream: Ofb.Ofb64
    const decodeStream: Ofb.Ofb64
    var encodeKey: Bytes
    var decodeKey: Bytes

    ghost predicate Valid()
      reads Footprint()
    {
      && params.hash.Valid()
      && cipher.pi == params.pi
      && encodeStream != decodeStream
      && encodeStream.Valid() && decodeStream.Valid()
      && |encodeKey| == |decodeKey| == params.hash.digestSize
    }

    ghost function Footprint(): set<object> {
      {this, cipher, encodeStream, decodeStream}
    }

    ghost function EncodeDir(): Dir
      requires Valid()
      reads Footprint()
    {
      Dir(encodeKey, cipher.encodeKey, encodeStream.View())
    }

    ghost function DecodeDir(): Dir
      requires Valid()
      reads Footprint()
    {
      Dir(decodeKey, cipher.decodeKey, decodeStream.View())
    }

    constructor (p: Params, password: Bytes, isClient: bool)
      requires p.hash.Valid()
      ensures Valid() && fresh(Footprint()) && params == p
      ensures var keys := Derived(p.hash, password, p.session);
              && |keys.first| > 0 && |keys.second| > 0
              && EncodeDir() == Opened(p, if isClient then keys.second else keys.first)
              && DecodeDir() == Opened(p, if isClient then keys.first else keys.second)
      ensures encodeKey == Permuted(p.hash, p.session, password, if isClient then 3 else 2)
      ensures decodeKey == Permuted(p.hash, p.session, password, if isClient then 2 else 3)
    {
      hide Derived, KeyExpansion.Expanded, Permuted;
      LoginKeysArePermutations(p.hash, password, p.session);
      params := p;
      var keys := DeriveLoginKeys(p.hash, password, p.session);
      var encode := if isClient then keys.second else keys.first;
      var decode := if isClient then keys.first else keys.second;
      var blowfish := new BlowfishCipher.Cipher(p.pi);
      blowfish.SetEncodeKey(encode);
      blowfish.SetDecodeKey(decode);
      cipher := blowfish;
      encodeKey, decodeKey := encode, decode;
      encodeStream := new Ofb.Ofb64();
      decodeStream := new Ofb.Ofb64();
    }

    /** Encodes a header and its payload in place under `flag`. */
    method Encode(header: array<byte>, data: array<byte>, flag: byte)
      requires Valid() && header.Length == HEADER_SIZE && header != data
      modifies Footprint(), header, data
      ensures Valid() && DecodeDir() == old(DecodeDir())
      ensures (EncodeDir(), Packet(header[..], data[..]))
           == Sealed(params, old(EncodeDir()), Packet(old(header[..]), old(data[..])), flag)
      ensures Masked(old(EncodeDir()), old(header[..]), AfterHeader(old(EncodeDir())).stream, header[..])
      ensures MaskedData(params, AfterHeader(old(EncodeDir())), old(data[..]), flag, EncodeDir(), data[..])
    {
      hide Ofb.Processed, Ofb.Advanced, Masked, MaskedData, PassedData;
      SealMasks(params, EncodeDir(), Packet(header[..], data[..]), flag);
      assert header[0..header.Length] == header[..];
      cipher.EncodeStream(encodeStream, header, 0, header.Length);
      assert header[0..header.Length] == header[..];
      EncodeData(data, flag);
    }

    /** The payload half of encoding, behind its header. */
    method EncodeData(data: array<byte>, flag: byte)
      requires Valid()
      modifies Footprint(), data
      ensures Valid() && DecodeDir() == old(DecodeDir())
      ensures (EncodeDir(), data[..]) == PassedData(params, old(EncodeDir()), old(data[..]), flag)
    {
      hide KeyExpansion.Expanded, Ofb.Processed, Ofb.Advanced, Permuted;
      ghost var d0, b0 := EncodeDir(), data[..];
      if data.Length == 0 {
        return;
      }
      if flag != 0 {
        var prefix := Min(2, data.Length);
        assert data[0..prefix] == b0[..prefix];
        cipher.EncodeStream(encodeStream, data, 0, prefix);
        assert data[0..prefix] == data[..prefix];
        ghost var d1 := EncodeDir();
        assert (d1, data[..prefix]) == Passed(d0, b0[..prefix]);
        encodeKey := PermuteKey(params.hash, encodeKey, params.session, flag);
        cipher.SetEncodeKey(encodeKey);
        assert EncodeDir() == Rekeyed(params, d1, flag);
        assert data[prefix..data.Length] == b0[prefix..];
        cipher.EncodeStream(encodeStream, data, prefix, data.Length);
        assert (EncodeDir(), data[prefix..data.Length]) == Passed(Rekeyed(params, d1, flag), b0[prefix..]);
        assert data[..] == data[..prefix] + data[prefix..data.Length];
      } else {
        assert data[0..data.Length] == b0;
        cipher.EncodeStream(encodeStream, data, 0, data.Length);
        assert data[0..data.Length] == data[..];
      }
    }

    /** Decodes a header in place and returns the flag it carries. */
    method DecodeHeader(header: array<byte>) returns (flag: byte)
      requires Valid() && header.Length == HEADER_SIZE
      modifies Footprint(), header
      ensures Valid() && EncodeDir() == old(EncodeDir())
      ensures (DecodeDir(), header[..]) == Passed(old(DecodeDir()), old(header[..]))
      ensures flag == header[0]
      ensures DecodeDir() == AfterHeader(old(DecodeDir()))
      ensures Masked(old(DecodeDir()), old(header[..]), DecodeDir().stream, header[..])
    {
      hide Ofb.Processed, Ofb.Advanced, Masked;
      PassMasks(DecodeDir(), header[..]);
      assert header[0..header.Length] == header[..];
      cipher.DecodeStream(decodeStream, header, 0, header.Length);
      assert header[0..header.Length] == header[..];
      flag := header[0];
    }

    /** Decodes a payload in place under the flag of its header. */
    method DecodeData(data: array<byte>, flag: byte)
      requires Valid()
      modifies Footprint(), data
      ensures Valid() && EncodeDir() == old(EncodeDir())
      ensures (DecodeDir(), data[..]) == PassedData(params, old(DecodeDir()), old(data[..]), flag)
      ensures MaskedData(params, old(DecodeDir()), old(data[..]), flag, DecodeDir(), data[..])
    {
      hide KeyExpansion.Expanded, Ofb.Processed, Ofb.Advanced, Permuted, MaskedData;
      ghost var d0, b0 := DecodeDir(), data[..];
      PassDataMasks(params, d0, b0, flag);
      if data.Length == 0 {
        return;
      }
      if flag != 0 {
        var prefix := Min(2, data.Length);
        assert data[0..prefix] == b0[..prefix];
        cipher.DecodeStream(decodeStream, data, 0, prefix);
        assert data[0..prefix] == data[..prefix];
        ghost var d1 := DecodeDir();
        assert (d1, data[..prefix]) == Passed(d0, b0[..prefix]);
        decodeKey := PermuteKey(params.hash, decodeKey, params.session, flag);
        cipher.SetDecodeKey(decodeKey);
        assert DecodeDir() == Rekeyed(params, d1, flag);
        assert data[prefix..data.Length] == b0[prefix..];
        cipher.DecodeStream(decodeStream, data, prefix, data.Length);
        assert (DecodeDir(), data[prefix..data.Length]) == Passed(Rekeyed(params, d1, flag), b0[prefix..]);
        assert data[..] == data[..prefix] + data[prefix..data.Length];
      } else {
        assert data[0..data.Length] == b0;
        cipher.DecodeStream(decodeStream, data, 0, data.Length);
        assert data[0..data.Length] == data[..];
      }
    }
  }
}
