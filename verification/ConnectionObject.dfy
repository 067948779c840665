/** The connection object: the member functions, each tied to the function of the state it computes. */
module ConnectionObject {
  import opened Endian
  import opened Wire
  import opened Reassembly
  import opened Receiver
  import opened Socket
  import opened Connection
  import opened CryptoHooks

  class ConnectionBase {
    const role: Role
    const max: u32
    const socket: Socket
    const crypto: ConnectionCryptoHooks
    const headerBytes: array<byte>

    var state: State
    var stage: Stage
    var expected: nat
    var inbound: Bytes
    var pendingHeader: Header
    var pendingFlag: byte
    var pendingData: Bytes
    var partial: map<Key, Message>
    var sendQueue: seq<PendingSend>
    var remote: (u32, u16)

    ghost var queued: Bytes
    ghost var log: seq<Event>
    ghost var handshakes: nat
    ghost var dispatched: seq<Message>
    ghost var parts: seq<Message>

    ghost function Footprint(): set<object> {
      {this, socket, headerBytes} + crypto.repr
    }

    ghost predicate Valid()
      reads Footprint(), crypto
    {
      && headerBytes.Length == HEADER_SIZE
      && pendingData == []
      && expected == Awaited()
      && (stage == AwaitData ==> pendingHeader.dataSize > 0)
      && {this, socket, headerBytes} !! crypto.repr
      && crypto.Valid()
    }

    ghost function Awaited(): nat
      reads this
    {
      match stage
      case AwaitHandshake => HandshakeSize(role)
      case AwaitHeader => HEADER_SIZE
      case AwaitData => pendingHeader.dataSize
    }

    ghost function RxView(): Rx
      reads this, crypto
    {
      Rx(stage, inbound, pendingHeader, pendingFlag, crypto.decoder, Assembly(partial, dispatched), parts)
    }

    /** The connection as a value. */
    ghost function View(): Conn
      reads this, socket, crypto
    {
      Conn(role, max, state, RxView(), socket.View(), sendQueue, crypto.encoder, remote, queued, log, handshakes)
    }

    constructor (role: Role, max: u32, crypto: ConnectionCryptoHooks)
      requires crypto.Valid()
      ensures Valid() && fresh(Footprint() - crypto.repr) && this.crypto == crypto
      ensures View() == Created(role, max, crypto.encoder, crypto.decoder)
    {
      this.role, this.max, this.crypto := role, max, crypto;
      socket := new Socket(UNOPENED);
      headerBytes := new byte[HEADER_SIZE](_ => 0);
      state, stage, expected := Idle, AwaitHandshake, HandshakeSize(role);
      inbound, pendingHeader, pendingFlag, pendingData := [], NO_HEADER, 0, [];
      partial, sendQueue, remote := map[], [], (0, 0);
      queued, log, handshakes, dispatched, parts := [], [], 0, [], [];
    }

    method MarkDead()
      requires Valid()
      modifies this, socket
      ensures Valid() && View() == MarkedDead(old(View()))
    {
      hide ConnectionCryptoHooks.Valid;
      if state == Dead {
        return;
      }
      state := Dead;
      socket.Close();
      log := log + [OnClosed];
    }

    method MarkEstablished()
      requires Valid()
      modifies this
      ensures Valid() && View() == MarkedEstablished(old(View()))
    {
      hide ConnectionCryptoHooks.Valid;
      state := Established;
      log := log + [OnEstablished];
    }

    method QueueBytes(bytes: Bytes)
      requires Valid()
      modifies this
      ensures Valid() && View() == Enqueued(old(View()), bytes)
    {
      hide ConnectionCryptoHooks.Valid;
      if bytes == [] {
        return;
      }
      sendQueue := sendQueue + [PendingSend(bytes, 0)];
      queued := queued + bytes;
    }

    method FlushSends()
      requires Valid()
      modifies this, socket
      ensures Valid() && View() == Flushed(old(View()))
    {
      hide Sending, Remainder, ConnectionCryptoHooks.Valid;
      while sendQueue != []
        invariant Valid() && Flushed(View()) == Flushed(old(View()))
        decreases |socket.sends|
      {
        var pending := sendQueue[0];
        var sent := socket.Send(Remainder(pending));
        match sent {
          case SendWouldBlock =>
            return;
          case SendRetry =>
          case SendError =>
            MarkDead();
            return;
          case Sent(n) =>
            pending := pending.(offset := pending.offset + n);
            if pending.offset >= |pending.bytes| {
              sendQueue := sendQueue[1..];
            } else {
              sendQueue := [pending] + sendQueue[1..];
            }
        }
      }
      if state == Closing && sendQueue == [] {
        MarkDead();
      }
    }

    /** Consumes the handshake bytes; the caller moves the receive stage on. */
    method HandleHandshake()
      requires Valid() && stage == AwaitHandshake && |inbound| >= expected
      modifies this, socket
      ensures Valid()
      ensures View() == InStage(Shook(old(View())), AwaitHandshake)
    {
      hide ConnectionCryptoHooks.Valid;
      handshakes := handshakes + 1;
      ghost var c := View();
      ShookInStage(old(View()), c);
      if role == Server {
        HandleClientHandshake();
      } else {
        HandleServerReply();
      }
    }

    method HandleClientHandshake()
      requires Valid() && role == Server && |inbound| >= CLIENT_HANDSHAKE_SIZE
      modifies this, socket
      ensures Valid() && stage == old(stage)
      ensures View() == ServerShook(Consumed(old(View()), CLIENT_HANDSHAKE_SIZE),
                                    DecodedClientHandshake(old(inbound)[..CLIENT_HANDSHAKE_SIZE]))
    {
      hide Flushed, DecodedClientHandshake, Replying, JudgeClient, MarkedDead, MarkedEstablished,
           ConnectionCryptoHooks.Valid;
      var h := DecodedClientHandshake(inbound[..CLIENT_HANDSHAKE_SIZE]);
      remote := (h.subProtocol, h.subVersion);
      var verdict := JudgeClient(h);
      if verdict == NotTransactionClient {
        Drop();
      } else if verdict == IncompatibleVersion {
        Reject();
      } else {
        Accept();
      }
    }

    method Drop()
      requires Valid() && |inbound| >= CLIENT_HANDSHAKE_SIZE
      modifies this, socket
      ensures Valid() && stage == old(stage)
      ensures View() == MarkedDead(Consumed(old(View()), CLIENT_HANDSHAKE_SIZE))
    {
      hide ConnectionCryptoHooks.Valid;
      inbound := inbound[CLIENT_HANDSHAKE_SIZE..];
      MarkDead();
    }

    method Reject()
      requires Valid() && |inbound| >= CLIENT_HANDSHAKE_SIZE
      modifies this, socket
      ensures Valid() && stage == old(stage)
      ensures View() == Flushed(Replying(Consumed(old(View()), CLIENT_HANDSHAKE_SIZE),
                                         ServerReply(PROTOCOL_TRTP, NormalizedReason(1))).(state := Closing))
    {
      hide Flushed, EncodedServerReply, ConnectionCryptoHooks.Valid;
      QueueBytes(EncodedServerReply(ServerReply(PROTOCOL_TRTP, NormalizedReason(1))));
      inbound := inbound[CLIENT_HANDSHAKE_SIZE..];
      state := Closing;
      FlushSends();
    }

    method Accept()
      requires Valid() && |inbound| >= CLIENT_HANDSHAKE_SIZE
      modifies this, socket
      ensures Valid() && stage == old(stage)
      ensures View() == Flushed(MarkedEstablished(Replying(Consumed(old(View()), CLIENT_HANDSHAKE_SIZE),
                                                           ServerReply(PROTOCOL_TRTP, 0))))
    {
      hide Flushed, EncodedServerReply, ConnectionCryptoHooks.Valid;
      QueueBytes(EncodedServerReply(ServerReply(PROTOCOL_TRTP, 0)));
      inbound := inbound[CLIENT_HANDSHAKE_SIZE..];
      MarkEstablished();
      FlushSends();
    }

    method HandleServerReply()
      requires Valid() && role == Client && |inbound| >= SERVER_REPLY_SIZE
      modifies this, socket
      ensures Valid()
      ensures View() == ClientShook(Consumed(old(View()), SERVER_REPLY_SIZE),
                                    DecodedServerReply(old(inbound)[..SERVER_REPLY_SIZE]))
    {
      hide DecodedServerReply, ConnectionCryptoHooks.Valid;
      var reply := DecodedServerReply(inbound[..SERVER_REPLY_SIZE]);
      inbound := inbound[SERVER_REPLY_SIZE..];
      if !ReplyAccepted(reply) {
        MarkDead();
        return;
      }
      MarkEstablished();
    }

    method ParseInbound()
      requires Valid()
      modifies Footprint()
      ensures Valid() && View() == Parsed(old(View()))
    {
      hide Step, Shook, MarkedDead, Announced, ConnectionCryptoHooks.Valid;
      while true
        invariant Valid() && Parsed(View()) == Parsed(old(View()))
        decreases |inbound|
      {
        if state == Dead || state == Closing {
          return;
        }
        ShortStep(View());
        match stage {
          case AwaitHandshake =>
            if |inbound| < expected {
              return;
            }
            TakeHandshake();
          case AwaitHeader =>
            if |inbound| < HEADER_SIZE {
              return;
            }
            var refused := TakeHeader();
            if refused {
              MarkDead();
              return;
            }
          case AwaitData =>
            if |inbound| < expected {
              return;
            }
            TakeData();
        }
      }
    }

    method TakeHandshake()
      requires Valid() && stage == AwaitHandshake && |inbound| >= expected
      modifies this, socket
      ensures Valid() && View() == Shook(old(View()))
    {
      hide Shook, ConnectionCryptoHooks.Valid;
      HandleHandshake();
      stage := AwaitHeader;
      expected := HEADER_SIZE;
    }

    /** A pass over a complete header: it goes through the hooks, and its sizes decide whether its data is awaited. */
    method TakeHeader() returns (refused: bool)
      requires Valid() && stage == AwaitHeader && |inbound| >= HEADER_SIZE
      modifies Footprint()
      ensures Valid()
      ensures var r := Step(max, old(RxView()));
              && refused == r.Refused?
              && !r.Wait?
              && View() == if refused then old(View()).(rx := r.rx) else Moved(old(View()), r.rx)
    {
      hide HeaderIn, DecodedHeader, Step, Refusable, ConnectionCryptoHooks.Valid;
      ghost var c := View();
      DecodeHeaderBytes();
      HeaderStep(c);
      refused := Refusable(pendingHeader, max);
      if !refused {
        pendingData := [];
        stage := AwaitData;
        expected := pendingHeader.dataSize;
        PolicyPassed(pendingHeader, max);
      }
    }

    method DecodeHeaderBytes()
      requires Valid() && stage == AwaitHeader && |inbound| >= HEADER_SIZE
      modifies Footprint()
      ensures Valid()
      ensures View() == old(View()).(rx := WithHeader(old(RxView())))
    {
      hide HeaderIn, DecodedHeader, ConnectionCryptoHooks.Valid;
      Load(headerBytes, inbound[..HEADER_SIZE]);
      inbound := inbound[HEADER_SIZE..];
      pendingFlag := crypto.DecodeHeader(headerBytes);
      pendingHeader := DecodedHeader(headerBytes[..]);
    }

    method TakeData()
      requires Valid() && stage == AwaitData && |inbound| >= expected
      modifies Footprint()
      ensures Valid()
      ensures Step(max, old(RxView())).Next?
      ensures View() == Moved(old(View()), Step(max, old(RxView())).rx)
    {
      hide Completed, Moved, Step, ConnectionCryptoHooks.Valid;
      ghost var c := View();
      DataStep(c);
      var data := TakeBytes();
      CompleteTransaction(data);
      stage := AwaitHeader;
      expected := HEADER_SIZE;
    }

    method TakeBytes() returns (data: Bytes)
      requires Valid() && stage == AwaitData && |inbound| >= expected
      modifies this
      ensures Valid() && stage == AwaitData
      ensures data == old(inbound)[..old(expected)] && View() == Consumed(old(View()), old(expected))
    {
      hide ConnectionCryptoHooks.Valid;
      data := pendingData + inbound[..expected];
      inbound := inbound[expected..];
      pendingData := [];
    }

    method CompleteTransaction(received: Bytes)
      requires Valid()
      modifies Footprint()
      ensures Valid() && stage == old(stage)
      ensures View() == Moved(old(View()), Completed(old(RxView()), received))
    {
      hide DataIn, ConnectionCryptoHooks.Valid;
      var data := crypto.DecodeData(received, pendingFlag);
      ghost var part := Message(pendingHeader, data);
      parts := parts + [part];

      if pendingHeader.totalSize == pendingHeader.dataSize {
        Dispatch(Message(pendingHeader, data));
        return;
      }

      var key := (pendingHeader.isReply, pendingHeader.id);
      var entry := if key in partial then partial[key] else Message(NO_HEADER, []);
      entry := Message(pendingHeader, entry.data + data);
      if |entry.data| >= entry.header.totalSize {
        Dispatch(entry);
        partial := partial - {key};
      } else {
        partial := partial[key := entry];
      }
    }

    /** The on_transaction callback: only the histories remember it. */
    ghost method Dispatch(m: Message)
      modifies `dispatched, `log
      ensures dispatched == old(dispatched) + [m] && log == old(log) + Announced([m])
    {
      dispatched := dispatched + [m];
      log := log + [OnTransaction(m)];
    }

    method ServiceReadable()
      requires Valid()
      modifies Footprint()
      ensures Valid() && View() == Readable(old(View()))
    {
      hide Drained, Parsed, ConnectionCryptoHooks.Valid;
      if state == Dead {
        return;
      }
      var ok := Drain();
      if ok {
        ParseInbound();
      }
    }

    /** The read loop: false when the socket failed and the connection with it. */
    method Drain() returns (ok: bool)
      requires Valid()
      modifies this, socket
      ensures Valid() && (View(), ok) == Drained(old(View()))
    {
      hide Receiving, ConnectionCryptoHooks.Valid;
      while true
        invariant Valid() && Drained(View()) == Drained(old(View()))
        decreases |socket.receives|
      {
        var received := socket.Receive();
        match received {
          case ReceiveWouldBlock =>
            return true;
          case ReceiveRetry =>
          case ReceiveError =>
            MarkDead();
            return false;
          case Received(bytes) =>
            inbound := inbound + bytes;
        }
      }
    }

    method ServiceWritable()
      requires Valid()
      modifies Footprint()
      ensures Valid() && View() == Writable(old(View()))
    {
      hide ConnectionCryptoHooks.Valid;
      if state == Dead {
        return;
      }
      FlushSends();
    }

    /** `flag` is what the flag hook chooses; it is not used without crypto. */
    method QueueTransaction(kind: u16, id: u32, data: Bytes, isReply: bool, error: u32, flag: byte)
      requires Valid()
      modifies Footprint()
      ensures Valid() && View() == Queued(old(View()), Request(kind, id, data, isReply, error, flag))
    {
      hide EncodedHeader, Flushed, ConnectionCryptoHooks.Valid;
      ghost var q := Request(kind, id, data, isReply, error, flag);
      var size := |data| % 0x1_0000_0000;
      var chosen := if crypto.cipher != null then flag else 0;
      var header := Header(chosen, if isReply then 1 else 0, kind, id, error, size, size);
      var headerOut := new byte[HEADER_SIZE](_ => 0);
      var dataOut := new byte[|data|](i requires 0 <= i < |data| => data[i]);
      assert dataOut[..] == data;
      EncodeHeader(header, headerOut);
      crypto.Encode(headerOut, dataOut, flag);
      assert Coded(old(crypto.encoder), q) == (crypto.encoder, headerOut[..] + dataOut[..]);
      QueueBytes(headerOut[..] + dataOut[..]);
      FlushSends();
    }

    /** Start: the client speaks first, the server waits. */
    method Start(from: Socket, subProtocol: u32, subVersion: u16)
      requires Valid() && from !in Footprint()
      modifies Footprint(), from
      ensures Valid() && View() == Started(old(View()), old(from.View()), subProtocol, subVersion)
    {
      hide Flushed, EncodedClientHandshake, ConnectionCryptoHooks.Valid;
      socket.TakeOver(from);
      if role == Server {
        state := AwaitingHandshake;
      } else {
        state := AwaitingReply;
        var h := ClientHandshake(PROTOCOL_TRTP, subProtocol, PROTOCOL_VERSION, subVersion);
        QueueBytes(EncodedClientHandshake(h));
        FlushSends();
      }
    }

    method CloseSocket()
      requires Valid()
      modifies socket
      ensures Valid() && View() == Closed(old(View()))
    {
      hide ConnectionCryptoHooks.Valid;
      socket.Close();
    }
  }

  method Load(buffer: array<byte>, bytes: Bytes)
    requires buffer.Length == |bytes|
    modifies buffer
    ensures buffer[..] == bytes
  {
    for i := 0 to |bytes|
      invariant buffer[..i] == bytes[..i]
    {
      buffer[i] := bytes[i];
    }
  }

  function InStage(c: Conn, stage: Stage): Conn {
    c.(rx := c.rx.(stage := stage))
  }

  function Consumed(c: Conn, n: nat): Conn
    requires n <= |c.rx.inbound|
  {
    c.(rx := c.rx.(inbound := c.rx.inbound[n..]))
  }

  /** The receive state once a header was taken off the buffer and decoded. */
  function WithHeader(rx: Rx): Rx
    requires |rx.inbound| >= HEADER_SIZE
  {
    var (hooks, plain, flag) := HeaderIn(rx.hooks, rx.inbound[..HEADER_SIZE]);
    rx.(inbound := rx.inbound[HEADER_SIZE..], hooks := hooks, flag := flag, header := DecodedHeader(plain))
  }

  lemma HeaderStep(c: Conn)
    requires c.Valid() && c.rx.stage == AwaitHeader && |c.rx.inbound| >= HEADER_SIZE
    ensures var rx := WithHeader(c.rx);
            if Refusable(rx.header, c.max) then Step(c.max, c.rx) == Refused(rx)
            else
              && Step(c.max, c.rx) == Next(rx.(stage := AwaitData))
              && Moved(c, rx.(stage := AwaitData)) == c.(rx := rx.(stage := AwaitData))
  {
    hide HeaderIn, DecodedHeader;
    assert Announced([]) == [];
  }

  lemma ShortStep(c: Conn)
    requires c.Valid()
    ensures c.rx.stage == AwaitHeader && |c.rx.inbound| < HEADER_SIZE ==> Step(c.max, c.rx) == Wait
    ensures c.rx.stage == AwaitData && |c.rx.inbound| < c.rx.header.dataSize ==> Step(c.max, c.rx) == Wait
  {
  }

  lemma PolicyPassed(h: Header, max: u32)
    requires !Refusable(h, max)
    ensures h.dataSize > 0
  {
  }

  lemma DataStep(c: Conn)
    requires c.Valid() && c.rx.stage == AwaitData && |c.rx.inbound| >= c.rx.header.dataSize
    ensures var n := c.rx.header.dataSize;
            var c' := Consumed(c, n);
            var rx' := Completed(c'.rx, c.rx.inbound[..n]);
            && Step(c.max, c.rx) == Next(rx'.(stage := AwaitHeader))
            && InStage(Moved(c', rx'), AwaitHeader) == Moved(c, Step(c.max, c.rx).rx)
  {
    hide DataIn, Taken;
  }

  lemma {:induction false} FlushIgnoresStage(c: Conn, stage: Stage)
    ensures Flushed(InStage(c, stage)) == InStage(Flushed(c), stage)
    decreases |c.link.sends|
  {
    hide Sending, Shifted, Remainder;
    if c.queue == [] {
    } else {
      var (link, result) := Sending(c.link, Remainder(c.queue[0]));
      var c' := c.(link := link);
      match result {
        case SendRetry =>
          FlushIgnoresStage(c', stage);
          assert InStage(c, stage).(link := link) == InStage(c', stage);
        case Sent(n) =>
          var c'' := c'.(queue := Shifted(c.queue, n));
          FlushIgnoresStage(c'', stage);
          assert InStage(c', stage).(queue := Shifted(c.queue, n)) == InStage(c'', stage);
        case SendWouldBlock =>
        case SendError =>
      }
    }
  }

  lemma ServerShookIgnoresStage(c: Conn, h: Wire.ClientHandshake, stage: Stage)
    ensures ServerShook(InStage(c, stage), h) == InStage(ServerShook(c, h), stage)
  {
    hide Flushed, EncodedServerReply, JudgeClient;
    var c' := c.(remote := (h.subProtocol, h.subVersion));
    FlushIgnoresStage(Replying(c', ServerReply(PROTOCOL_TRTP, NormalizedReason(1))).(state := Closing), stage);
    FlushIgnoresStage(MarkedEstablished(Replying(c', ServerReply(PROTOCOL_TRTP, 0))), stage);
  }

  /** The handshake step does not look at the stage it leaves. */
  lemma ShookInStage(c: Conn, counted: Conn)
    requires c.rx.stage == AwaitHandshake && |c.rx.inbound| >= HandshakeSize(c.role)
    requires counted == c.(handshakes := c.handshakes + 1)
    ensures var n := HandshakeSize(c.role);
            InStage(Shook(c), AwaitHandshake) ==
            match c.role
            case Server => ServerShook(Consumed(counted, n), DecodedClientHandshake(c.rx.inbound[..n]))
            case Client => ClientShook(Consumed(counted, n), DecodedServerReply(c.rx.inbound[..n]))
  {
    hide ServerShook, DecodedClientHandshake, DecodedServerReply;
    var n := HandshakeSize(c.role);
    if c.role == Server {
      var h := DecodedClientHandshake(c.rx.inbound[..n]);
      ServerShookIgnoresStage(Consumed(counted, n), h, AwaitHeader);
    }
  }
}
