/** The connection as a function of its state: queueing, flushing, reading, parsing, handshakes. */
module Connection {
  import opened Endian
  import opened Wire
  import opened Reassembly
  import opened Receiver
  import opened Socket
  import Cipher = TransactionCipher

  datatype Role = Client | Server
  datatype State = Idle | AwaitingReply | AwaitingHandshake | Established | Closing | Dead
  datatype Event = OnEstablished | OnTransaction(m: Message) | OnClosed
  datatype PendingSend = PendingSend(bytes: Bytes, offset: nat)

  /**
   * A connection, with its histories: all bytes ever queued, the events fired in order, how often
   * the handshake step ran, and (inside `rx` and `link`) the parts completed and the bytes moved.
   */
  datatype Conn = Conn(role: Role, max: u32, state: State, rx: Rx, link: Link,
                       queue: seq<PendingSend>, encoder: Hooks, remote: (u32, u16),
                       queued: Bytes, log: seq<Event>, handshakes: nat)
  {
    ghost predicate Valid() {
      rx.Valid() && encoder.Valid()
    }
  }

  /** What no parsing, flushing or handshake step touches. */
  ghost predicate SameSetup(c: Conn, r: Conn) {
    && r.role == c.role && r.max == c.max && r.encoder == c.encoder
    && r.link.delivered == c.link.delivered && r.link.receives == c.link.receives
  }

  function HandshakeSize(role: Role): nat {
    if role == Client then SERVER_REPLY_SIZE else CLIENT_HANDSHAKE_SIZE
  }

  function Created(role: Role, max: u32, encoder: Hooks, decoder: Hooks): Conn {
    Conn(role, max, Idle, Rx(AwaitHandshake, [], NO_HEADER, 0, decoder, NOTHING, []), UNOPENED,
         [], encoder, (0, 0), [], [], 0)
  }

  // ------------------------------------------------------------------
  // Leaving and sending
  // ------------------------------------------------------------------

  function MarkedDead(c: Conn): Conn {
    if c.state == Dead then c
    else c.(state := Dead, link := c.link.(open := false), log := c.log + [OnClosed])
  }

  function Enqueued(c: Conn, bytes: Bytes): Conn {
    if bytes == [] then c
    else c.(queue := c.queue + [PendingSend(bytes, 0)], queued := c.queued + bytes)
  }

  function Remainder(p: PendingSend): Bytes {
    if p.offset <= |p.bytes| then p.bytes[p.offset..] else []
  }

  /** The queue after the socket took `n` more bytes of its first entry. */
  function Shifted(queue: seq<PendingSend>, n: nat): seq<PendingSend>
    requires queue != []
  {
    var p := queue[0].(offset := queue[0].offset + n);
    if p.offset >= |p.bytes| then queue[1..] else [p] + queue[1..]
  }

  function Flushed(c: Conn): (r: Conn)
    ensures r == c.(state := r.state, link := r.link, queue := r.queue, log := r.log)
    ensures SameSetup(c, r)
    decreases |c.link.sends|
  {
    if c.queue == [] then
      if c.state == Closing then MarkedDead(c) else c
    else
      var (link, result) := Sending(c.link, Remainder(c.queue[0]));
      var c' := c.(link := link);
      match result
      case SendWouldBlock => c'
      case SendRetry => Flushed(c')
      case SendError => MarkedDead(c')
      case Sent(n) => Flushed(c'.(queue := Shifted(c.queue, n)))
  }

  // ------------------------------------------------------------------
  // The handshake step
  // ------------------------------------------------------------------

  function MarkedEstablished(c: Conn): Conn {
    c.(state := Established, log := c.log + [OnEstablished])
  }

  function Replying(c: Conn, reply: ServerReply): Conn {
    Enqueued(c, EncodedServerReply(reply))
  }

  function ServerShook(c: Conn, h: ClientHandshake): (r: Conn)
    ensures r.rx == c.rx && r.handshakes == c.handshakes && SameSetup(c, r)
  {
    var c' := c.(remote := (h.subProtocol, h.subVersion));
    match JudgeClient(h)
    case NotTransactionClient => MarkedDead(c')
    case IncompatibleVersion =>
      Flushed(Replying(c', ServerReply(PROTOCOL_TRTP, NormalizedReason(1))).(state := Closing))
    case Accepted => Flushed(MarkedEstablished(Replying(c', ServerReply(PROTOCOL_TRTP, 0))))
  }

  function ClientShook(c: Conn, reply: ServerReply): (r: Conn)
    ensures r.rx == c.rx && r.handshakes == c.handshakes && SameSetup(c, r)
  {
    if ReplyAccepted(reply) then MarkedEstablished(c) else MarkedDead(c)
  }

  /** The handshake step takes its bytes off the buffer and moves the receive stage on, once. */
  function Shook(c: Conn): (r: Conn)
    requires |c.rx.inbound| >= HandshakeSize(c.role)
    ensures r.rx == c.rx.(inbound := c.rx.inbound[HandshakeSize(c.role)..], stage := AwaitHeader)
    ensures r.handshakes == c.handshakes + 1 && SameSetup(c, r)
  {
    var n := HandshakeSize(c.role);
    var c' := c.(rx := c.rx.(inbound := c.rx.inbound[n..], stage := AwaitHeader), handshakes := c.handshakes + 1);
    match c.role
    case Server => ServerShook(c', DecodedClientHandshake(c.rx.inbound[..n]))
    case Client => ClientShook(c', DecodedServerReply(c.rx.inbound[..n]))
  }

  // ------------------------------------------------------------------
  // Reading and parsing
  // ------------------------------------------------------------------

  function Announced(ms: seq<Message>): (r: seq<Event>)
    ensures |r| == |ms|
  {
    seq(|ms|, i requires 0 <= i < |ms| => OnTransaction(ms[i]))
  }

  /** The receive state after a step, with the transactions it dispatched announced. */
  function Moved(c: Conn, rx: Rx): Conn
    requires c.rx.asm.dispatched <= rx.asm.dispatched
  {
    c.(rx := rx, log := c.log + Announced(rx.asm.dispatched[|c.rx.asm.dispatched|..]))
  }

  function Parsed(c: Conn): (r: Conn)
    requires c.Valid()
    ensures r.Valid() && SameSetup(c, r)
    decreases |c.rx.inbound|
  {
    if c.state == Dead || c.state == Closing then c
    else if c.rx.stage == AwaitHandshake then
      if |c.rx.inbound| < HandshakeSize(c.role) then c else Parsed(Shook(c))
    else
      match Step(c.max, c.rx)
      case Wait => c
      case Refused(rx) => MarkedDead(c.(rx := rx))
      case Next(rx) => Parsed(Moved(c, rx))
  }

  /** The read loop: everything the socket has, until it blocks; false when it failed instead. */
  function Drained(c: Conn): (r: (Conn, bool))
    ensures c.Valid() ==> r.0.Valid()
    decreases |c.link.receives|
  {
    var (link, result) := Receiving(c.link);
    var c' := c.(link := link);
    match result
    case ReceiveWouldBlock => (c', true)
    case ReceiveRetry => Drained(c')
    case ReceiveError => (MarkedDead(c'), false)
    case Received(bytes) => Drained(c'.(rx := Append(c.rx, bytes)))
  }

  function Readable(c: Conn): (r: Conn)
    requires c.Valid()
    ensures r.Valid()
  {
    if c.state == Dead then c
    else
      var (c', ok) := Drained(c);
      if ok then Parsed(c') else c'
  }

  function Writable(c: Conn): Conn {
    if c.state == Dead then c else Flushed(c)
  }

  // ------------------------------------------------------------------
  // Transactions out
  // ------------------------------------------------------------------

  /** A call of queue_transaction; `flag` is what the flag hook would choose. */
  datatype Request = Request(kind: u16, id: u32, data: Bytes, isReply: bool, error: u32, flag: byte)

  function HeaderFor(q: Request, coded: bool): Header {
    var size := |q.data| % 0x1_0000_0000;
    Header(if coded then q.flag else 0, if q.isReply then 1 else 0, q.kind, q.id, q.error, size, size)
  }

  /** The bytes of one transaction on the wire, and the encode side after it. */
  function Coded(encoder: Hooks, q: Request): (r: (Hooks, Bytes))
    requires encoder.Valid()
    ensures r.0.Valid() && |r.1| == HEADER_SIZE + |q.data|
  {
    var header := EncodedHeader(HeaderFor(q, encoder.Hooks?));
    match encoder
    case NoHooks => (encoder, header + q.data)
    case Hooks(params, dir) =>
      var (dir', m) := Cipher.Sealed(params, dir, Cipher.Packet(header, q.data), q.flag);
      (Hooks(params, dir'), m.header + m.data)
  }

  function Queued(c: Conn, q: Request): (r: Conn)
    requires c.Valid()
    ensures r.Valid()
  {
    var (encoder, bytes) := Coded(c.encoder, q);
    Flushed(Enqueued(c.(encoder := encoder), bytes))
  }

  // ------------------------------------------------------------------
  // Starting and closing
  // ------------------------------------------------------------------

  function Started(c: Conn, link: Link, subProtocol: u32, subVersion: u16): Conn {
    match c.role
    case Server => c.(link := link, state := AwaitingHandshake)
    case Client =>
      var h := ClientHandshake(PROTOCOL_TRTP, subProtocol, PROTOCOL_VERSION, subVersion);
      Flushed(Enqueued(c.(link := link, state := AwaitingReply), EncodedClientHandshake(h)))
  }

  function Closed(c: Conn): Conn {
    c.(link := c.link.(open := false))
  }

  // ------------------------------------------------------------------
  // Calls from the application
  // ------------------------------------------------------------------

  datatype Call =
    | Start(subProtocol: u32, subVersion: u16)
    | ServiceReadable
    | ServiceWritable
    | QueueTransaction(q: Request)
    | Close

  /** What the socket will do during one call. */
  datatype World = World(sends: seq<SendOutcome>, receives: seq<ReceiveOutcome>)

  function Armed(c: Conn, w: World): Conn {
    c.(link := c.link.(sends := w.sends, receives := w.receives))
  }

  function Called(c: Conn, call: Call, w: World): (r: Conn)
    requires c.Valid()
    ensures r.Valid()
  {
    match call
    case Start(subProtocol, subVersion) => Started(c, Link(true, w.sends, w.receives, [], []), subProtocol, subVersion)
    case ServiceReadable => Readable(Armed(c, w))
    case ServiceWritable => Writable(Armed(c, w))
    case QueueTransaction(q) => Queued(Armed(c, w), q)
    case Close => Closed(c)
  }
}
