/** The handshake step on the bytes themselves: which are accepted, and what is said in answer. */
module Handshakes {
  import opened Endian
  import opened Wire
  import opened Receiver
  import opened Socket
  import opened Connection
  import opened Lifecycle

  /** 'TRTP' and error 0; 'TRTP' and error 1. */
  const ACCEPTANCE: Bytes := [0x54, 0x52, 0x54, 0x50, 0x00, 0x00, 0x00, 0x00]
  const REFUSAL: Bytes := [0x54, 0x52, 0x54, 0x50, 0x00, 0x00, 0x00, 0x01]

  lemma AcceptanceIs()
    ensures EncodedServerReply(ServerReply(PROTOCOL_TRTP, 0)) == ACCEPTANCE
  {
  }

  lemma RefusalIs()
    ensures EncodedServerReply(ServerReply(PROTOCOL_TRTP, NormalizedReason(1))) == REFUSAL
  {
  }

  /** The connection as the handshake step finds it: the bytes taken, the step counted. */
  function Stepping(c: Conn): Conn
    requires |c.rx.inbound| >= HandshakeSize(c.role)
  {
    c.(rx := c.rx.(inbound := c.rx.inbound[HandshakeSize(c.role)..], stage := AwaitHeader),
       handshakes := c.handshakes + 1)
  }

  /** The end of a connection that said nothing more. */
  ghost predicate Silenced(c: Conn, r: Conn) {
    && r.state == Dead && r.log == c.log + [OnClosed]
    && r.queued == c.queued && r.queue == c.queue && r.link.accepted == c.link.accepted
  }

  /**
   * A server on the twelve bytes of its client. Bytes 0 to 3 other than 'TRTP' or 'NICK': gone without
   * a word. One of these, and bytes 8 and 9 other than 00 01: the refusal is queued, and it is closing,
   * or gone once it was flushed. One of these and 00 01: the acceptance is queued and it is established,
   * or gone in sending. It is established only then. Either answer is sent until the socket blocks.
   */
  lemma ServerAnswersBytes(c: Conn)
    requires c.role == Server && c.state == AwaitingHandshake && |c.rx.inbound| >= 12
    ensures var b, r := c.rx.inbound[..12], Shook(c);
            && (!TransactionTag(b) ==> Silenced(c, r))
            && (TransactionTag(b) && b[8..10] != [0x00, 0x01] ==>
                  && r.queued == c.queued + REFUSAL
                  && (r.state == Closing || r.state == Dead)
                  && r.log == c.log + if r.state == Dead then [OnClosed] else [])
            && (TransactionTag(b) && b[8..10] == [0x00, 0x01] ==>
                  && r.queued == c.queued + ACCEPTANCE
                  && (r.state == Established || r.state == Dead)
                  && r.log == c.log + [OnEstablished] + if r.state == Dead then [OnClosed] else [])
            && (TransactionTag(b) ==> r.state == Dead || r.queue == [] || Blocked(c.link.sends, r.link.sends))
            && r.remote == (BigEndian(b[4..8]), BigEndian(b[10..12]))
  {
    hide Flushed, EncodedServerReply, JudgeClient, DecodedClientHandshake, TransactionTag, BigEndian;
    var b := c.rx.inbound[..12];
    VerdictOfBytes(b);
    RemoteOfBytes(b);
    AcceptanceIs();
    RefusalIs();
    var h := DecodedClientHandshake(b);
    var d := Stepping(c).(remote := (h.subProtocol, h.subVersion));
    var refusing := Replying(d, ServerReply(PROTOCOL_TRTP, NormalizedReason(1))).(state := Closing);
    var accepting := MarkedEstablished(Replying(d, ServerReply(PROTOCOL_TRTP, 0)));
    FlushEndsAs(refusing);
    FlushLogs(refusing);
    FlushGoesOn(refusing);
    FlushEndsAs(accepting);
    FlushLogs(accepting);
    FlushGoesOn(accepting);
  }

  lemma RemoteOfBytes(b: Bytes)
    requires |b| == 12
    ensures DecodedClientHandshake(b).subProtocol == BigEndian(b[4..8])
    ensures DecodedClientHandshake(b).subVersion == BigEndian(b[10..12])
  {
    hide BigEndian, ReadU32be, ReadU16be;
    BigEndianOfFour(b[4..8]);
    BigEndianOfTwo(b[10..12]);
  }

  lemma {:induction false} FlushLogs(c: Conn)
    ensures c.state != Dead ==> Flushed(c).log == c.log + if Flushed(c).state == Dead then [OnClosed] else []
    decreases |c.link.sends|
  {
    hide Sending, Shifted, Remainder;
    if c.queue == [] {
    } else {
      var (link, result) := Sending(c.link, Remainder(c.queue[0]));
      var c' := c.(link := link);
      match result {
        case SendRetry => FlushLogs(c');
        case Sent(n) => FlushLogs(c'.(queue := Shifted(c.queue, n)));
        case SendWouldBlock =>
        case SendError =>
      }
    }
  }

  /**
   * A client on the eight bytes of its server: established if bytes 0 to 3 are 'TRTP' or 'NICK' and the
   * other four are zero, and otherwise gone; either way it says nothing.
   */
  lemma ClientAnswersBytes(c: Conn)
    requires c.role == Client && c.state == AwaitingReply && |c.rx.inbound| >= 8
    ensures var b, r := c.rx.inbound[..8], Shook(c);
            if TransactionTag(b) && b[4..8] == [0x00, 0x00, 0x00, 0x00] then
              && r.state == Established && r.log == c.log + [OnEstablished]
              && r.queued == c.queued && r.link == c.link
            else Silenced(c, r)
  {
    hide ReplyAccepted, DecodedServerReply, TransactionTag;
    AcceptanceOfBytes(c.rx.inbound[..8]);
  }

  /** What a client says first: 'TRTP', the sub-protocol, 00 01, the sub-version. */
  lemma ClientSpeaksBytes(c: Conn, link: Link, subProtocol: u32, subVersion: u16)
    requires c.role == Client
    ensures var r := Started(c, link, subProtocol, subVersion);
            && |r.queued| == |c.queued| + 12 && c.queued <= r.queued
            && var b := r.queued[|c.queued|..];
            && b[..4] == [0x54, 0x52, 0x54, 0x50]
            && BigEndian(b[4..8]) == subProtocol
            && b[8..10] == [0x00, 0x01]
            && BigEndian(b[10..12]) == subVersion
  {
    hide Flushed, EncodedClientHandshake, DecodedClientHandshake, BigEndian;
    var h := ClientHandshake(PROTOCOL_TRTP, subProtocol, PROTOCOL_VERSION, subVersion);
    var b := EncodedClientHandshake(h);
    OpeningBytes(h);
  }

  lemma OpeningBytes(h: ClientHandshake)
    requires h.protocol == PROTOCOL_TRTP && h.version == PROTOCOL_VERSION
    ensures var b := EncodedClientHandshake(h);
            && b[..4] == [0x54, 0x52, 0x54, 0x50]
            && BigEndian(b[4..8]) == h.subProtocol
            && b[8..10] == [0x00, 0x01]
            && BigEndian(b[10..12]) == h.subVersion
  {
    hide BigEndian;
    ClientHandshakeRoundTrip(h);
    RemoteOfBytes(EncodedClientHandshake(h));
  }
}
