/** The transaction header and the connection handshakes as they appear on the wire. */
module Wire {
  import opened Endian

  // ------------------------------------------------------------------
  // Transaction headers
  // ------------------------------------------------------------------

  const HEADER_SIZE: nat := 20

  datatype Header = Header(flag: byte, isReply: byte, kind: u16, id: u32, error: u32, totalSize: u32, dataSize: u32)

  const NO_HEADER := Header(0, 0, 100, 0, 0, 0, 0)

  function EncodedHeader(h: Header): (b: Bytes)
    ensures |b| == HEADER_SIZE
  {
    [h.flag, h.isReply] + WriteU16be(h.kind) + WriteU32be(h.id) + WriteU32be(h.error)
    + WriteU32be(h.totalSize) + WriteU32be(h.dataSize)
  }

  function DecodedHeader(b: Bytes): Header
    requires |b| == HEADER_SIZE
  {
    Header(b[0], b[1], ReadU16be(b[2..4]), ReadU32be(b[4..8]), ReadU32be(b[8..12]), ReadU32be(b[12..16]),
           ReadU32be(b[16..20]))
  }

  method EncodeHeader(h: Header, out: array<byte>)
    requires out.Length == HEADER_SIZE
    modifies out
    ensures out[..] == EncodedHeader(h)
  {
    out[0] := h.flag;
    out[1] := h.isReply;
    Store(out, 2, WriteU16be(h.kind));
    Store(out, 4, WriteU32be(h.id));
    Store(out, 8, WriteU32be(h.error));
    Store(out, 12, WriteU32be(h.totalSize));
    Store(out, 16, WriteU32be(h.dataSize));
    assert out[..] == [h.flag, h.isReply] + out[2..4] + out[4..8] + out[8..12] + out[12..16] + out[16..20];
  }

  method Store(out: array<byte>, at: nat, bytes: Bytes)
    requires at + |bytes| <= out.Length
    modifies out
    ensures out[at..at + |bytes|] == bytes
    ensures forall i :: 0 <= i < out.Length && !(at <= i < at + |bytes|) ==> out[i] == old(out[i])
  {
    for i := 0 to |bytes|
      invariant out[at..at + i] == bytes[..i]
      invariant forall k :: 0 <= k < out.Length && !(at <= k < at + i) ==> out[k] == old(out[k])
    {
      out[at + i] := bytes[i];
    }
  }

  lemma HeaderRoundTrip(h: Header)
    ensures DecodedHeader(EncodedHeader(h)) == h
  {
    hide ReadU16be, WriteU16be, ReadU32be, WriteU32be;
    var b := EncodedHeader(h);
    assert b[2..4] == WriteU16be(h.kind) + [];
    assert b[4..8] == WriteU32be(h.id) + [];
    assert b[8..12] == WriteU32be(h.error) + [];
    assert b[12..16] == WriteU32be(h.totalSize) + [];
    assert b[16..20] == WriteU32be(h.dataSize) + [];
    ReadWriteU16(h.kind, []);
    ReadWriteU32(h.id, []);
    ReadWriteU32(h.error, []);
    ReadWriteU32(h.totalSize, []);
    ReadWriteU32(h.dataSize, []);
  }

  lemma HeaderBytesRoundTrip(b: Bytes)
    requires |b| == HEADER_SIZE
    ensures EncodedHeader(DecodedHeader(b)) == b
  {
    hide ReadU16be, WriteU16be, ReadU32be, WriteU32be;
    WriteReadU16(b[2..4]);
    WriteReadU32(b[4..8]);
    WriteReadU32(b[8..12]);
    WriteReadU32(b[12..16]);
    WriteReadU32(b[16..20]);
    assert b == [b[0], b[1]] + b[2..4] + b[4..8] + b[8..12] + b[12..16] + b[16..20];
  }

  // ------------------------------------------------------------------
  // Handshakes
  // ------------------------------------------------------------------

  const CLIENT_HANDSHAKE_SIZE: nat := 12
  const SERVER_REPLY_SIZE: nat := 8
  const PROTOCOL_TRTP: u32 := 0x54525450
  const PROTOCOL_NICK: u32 := 0x4E49434B
  const PROTOCOL_VERSION: u16 := 1

  datatype ClientHandshake = ClientHandshake(protocol: u32, subProtocol: u32, version: u16, subVersion: u16)
  datatype ServerReply = ServerReply(protocol: u32, error: u32)

  function EncodedClientHandshake(h: ClientHandshake): (b: Bytes)
    ensures |b| == CLIENT_HANDSHAKE_SIZE
  {
    WriteU32be(h.protocol) + WriteU32be(h.subProtocol) + WriteU16be(h.version) + WriteU16be(h.subVersion)
  }

  function DecodedClientHandshake(b: Bytes): ClientHandshake
    requires |b| == CLIENT_HANDSHAKE_SIZE
  {
    ClientHandshake(ReadU32be(b[..4]), ReadU32be(b[4..8]), ReadU16be(b[8..10]), ReadU16be(b[10..12]))
  }

  function EncodedServerReply(r: ServerReply): (b: Bytes)
    ensures |b| == SERVER_REPLY_SIZE
  {
    WriteU32be(r.protocol) + WriteU32be(r.error)
  }

  function DecodedServerReply(b: Bytes): ServerReply
    requires |b| == SERVER_REPLY_SIZE
  {
    ServerReply(ReadU32be(b[..4]), ReadU32be(b[4..8]))
  }

  lemma ClientHandshakeRoundTrip(h: ClientHandshake)
    ensures DecodedClientHandshake(EncodedClientHandshake(h)) == h
  {
    hide ReadU16be, WriteU16be, ReadU32be, WriteU32be;
    var b := EncodedClientHandshake(h);
    assert b[..4] == WriteU32be(h.protocol) + [];
    assert b[4..8] == WriteU32be(h.subProtocol) + [];
    assert b[8..10] == WriteU16be(h.version) + [];
    assert b[10..12] == WriteU16be(h.subVersion) + [];
    ReadWriteU32(h.protocol, []);
    ReadWriteU32(h.subProtocol, []);
    ReadWriteU16(h.version, []);
    ReadWriteU16(h.subVersion, []);
  }

  lemma ServerReplyRoundTrip(r: ServerReply)
    ensures DecodedServerReply(EncodedServerReply(r)) == r
  {
    hide ReadU32be, WriteU32be;
    var b := EncodedServerReply(r);
    assert b[..4] == WriteU32be(r.protocol) + [];
    assert b[4..8] == WriteU32be(r.error) + [];
    ReadWriteU32(r.protocol, []);
    ReadWriteU32(r.error, []);
  }

  datatype ClientVerdict = Accepted | NotTransactionClient | IncompatibleVersion

  predicate KnownProtocol(tag: u32) {
    tag == PROTOCOL_TRTP || tag == PROTOCOL_NICK
  }

  function JudgeClient(h: ClientHandshake): ClientVerdict {
    if !KnownProtocol(h.protocol) then NotTransactionClient
    else if h.version != PROTOCOL_VERSION then IncompatibleVersion
    else Accepted
  }

  predicate ReplyAccepted(r: ServerReply) {
    KnownProtocol(r.protocol) && r.error == 0
  }

  function NormalizedReason(reason: u32): u32 {
    if reason == 0 then 1 else reason
  }

  // ------------------------------------------------------------------
  // The same on the bytes
  // ------------------------------------------------------------------

  /** 'TRTP' or 'NICK'. */
  predicate TransactionTag(b: Bytes)
    requires |b| >= 4
  {
    b[..4] == [0x54, 0x52, 0x54, 0x50] || b[..4] == [0x4E, 0x49, 0x43, 0x4B]
  }

  lemma WordIs(b: Bytes, v: u32)
    requires |b| == 4
    ensures ReadU32be(b) == v <==> b == WriteU32be(v)
  {
    hide ReadU32be, WriteU32be;
    WriteReadU32(b);
    ReadWriteU32(v, []);
    assert b[..4] == b && WriteU32be(v) + [] == WriteU32be(v);
  }

  lemma TagOfBytes(b: Bytes)
    requires |b| >= 4
    ensures KnownProtocol(ReadU32be(b[..4])) <==> TransactionTag(b)
  {
    hide ReadU32be;
    WordIs(b[..4], PROTOCOL_TRTP);
    WordIs(b[..4], PROTOCOL_NICK);
  }

  /** The verdict on a client, from bytes 0 to 3 and 8 to 9 alone. */
  lemma VerdictOfBytes(b: Bytes)
    requires |b| == CLIENT_HANDSHAKE_SIZE
    ensures JudgeClient(DecodedClientHandshake(b)) ==
            if !TransactionTag(b) then NotTransactionClient
            else if b[8..10] != [0x00, 0x01] then IncompatibleVersion
            else Accepted
  {
    hide TransactionTag;
    TagOfBytes(b);
    assert b[8..10] == [b[8], b[9]];
  }

  /** A reply is an acceptance by all its eight bytes. */
  lemma AcceptanceOfBytes(b: Bytes)
    requires |b| == SERVER_REPLY_SIZE
    ensures ReplyAccepted(DecodedServerReply(b)) <==> TransactionTag(b) && b[4..8] == [0x00, 0x00, 0x00, 0x00]
  {
    hide TransactionTag, ReadU32be;
    TagOfBytes(b);
    WordIs(b[4..8], 0);
  }

  /** The header fields at their places. */
  lemma HeaderBytes(h: Header)
    ensures var b := EncodedHeader(h);
            && b[0] == h.flag && b[1] == h.isReply
            && BigEndian(b[2..4]) == h.kind
            && BigEndian(b[4..8]) == h.id
            && BigEndian(b[8..12]) == h.error
            && BigEndian(b[12..16]) == h.totalSize
            && BigEndian(b[16..20]) == h.dataSize
  {
    hide ReadU16be, WriteU16be, ReadU32be, WriteU32be, EncodedHeader, BigEndian;
    var b := EncodedHeader(h);
    HeaderRoundTrip(h);
    BigEndianOfTwo(b[2..4]);
    BigEndianOfFour(b[4..8]);
    BigEndianOfFour(b[8..12]);
    BigEndianOfFour(b[12..16]);
    BigEndianOfFour(b[16..20]);
  }
}
