/** What every call on a connection keeps, and what whole runs of calls therefore cannot do. */
module Lifecycle {
  import opened Endian
  import opened Wire
  import opened Receiver
  import opened Socket
  import opened Connection

  // ------------------------------------------------------------------
  // The send queue
  // ------------------------------------------------------------------

  /** The bytes still to be sent, in order. */
  function Unsent(queue: seq<PendingSend>): Bytes {
    if queue == [] then [] else Remainder(queue[0]) + Unsent(queue[1..])
  }

  /** What the socket accepted, then what is still queued, is all that was ever queued. */
  ghost predicate QueueSound(c: Conn) {
    && (forall p :: p in c.queue ==> p.offset < |p.bytes|)
    && c.link.accepted + Unsent(c.queue) == c.queued
  }

  lemma RemainderOfNew(bytes: Bytes)
    ensures Remainder(PendingSend(bytes, 0)) == bytes
  {
  }

  lemma {:induction false} UnsentAppend(queue: seq<PendingSend>, bytes: Bytes)
    ensures Unsent(queue + [PendingSend(bytes, 0)]) == Unsent(queue) + bytes
  {
    hide Remainder;
    if queue == [] {
      RemainderOfNew(bytes);
      assert queue + [PendingSend(bytes, 0)] == [PendingSend(bytes, 0)];
    } else {
      assert (queue + [PendingSend(bytes, 0)])[1..] == queue[1..] + [PendingSend(bytes, 0)];
      UnsentAppend(queue[1..], bytes);
      Associate(Remainder(queue[0]), Unsent(queue[1..]), bytes);
    }
  }

  lemma EnqueueKeepsQueue(c: Conn, bytes: Bytes)
    requires QueueSound(c)
    ensures QueueSound(Enqueued(c, bytes))
  {
    hide Unsent;
    UnsentAppend(c.queue, bytes);
    assert c.link.accepted + Unsent(c.queue) + bytes == c.link.accepted + (Unsent(c.queue) + bytes);
  }

  lemma UnsentCons(p: PendingSend, rest: seq<PendingSend>)
    ensures Unsent([p] + rest) == Remainder(p) + Unsent(rest)
  {
    assert ([p] + rest)[1..] == rest;
  }

  lemma RemainderSplits(p: PendingSend, n: nat)
    requires n <= |Remainder(p)|
    ensures Remainder(p) == Remainder(p)[..n] + Remainder(p.(offset := p.offset + n))
    ensures p.offset < |p.bytes| && p.offset + n >= |p.bytes| ==> Remainder(p.(offset := p.offset + n)) == []
  {
  }

  lemma Associate(a: Bytes, b: Bytes, c: Bytes)
    ensures a + b + c == a + (b + c)
  {
  }

  lemma ShiftMovesBytes(queue: seq<PendingSend>, n: nat)
    requires queue != [] && n <= |Remainder(queue[0])|
    requires forall p :: p in queue ==> p.offset < |p.bytes|
    ensures Unsent(queue) == Remainder(queue[0])[..n] + Unsent(Shifted(queue, n))
    ensures forall p :: p in Shifted(queue, n) ==> p.offset < |p.bytes|
  {
    hide Unsent, Remainder;
    var p, rest := queue[0], queue[1..];
    var p' := p.(offset := p.offset + n);
    assert p in queue && queue == [p] + rest;
    RemainderSplits(p, n);
    UnsentCons(p, rest);
    UnsentCons(p', rest);
    Associate(Remainder(p)[..n], Remainder(p'), Unsent(rest));
    if p'.offset >= |p.bytes| {
      assert Remainder(p') + Unsent(rest) == Unsent(rest);
    }
  }

  /** Flushing keeps the account of bytes, and in Closing it ends the connection only when it is settled. */
  lemma {:induction false} FlushKeepsQueue(c: Conn)
    requires QueueSound(c)
    ensures QueueSound(Flushed(c)) && Flushed(c).queued == c.queued
    ensures c.link.open && SendFails !in c.link.sends && c.state != Dead && Flushed(c).state == Dead ==>
              c.state == Closing && Flushed(c).link.accepted == c.queued
    decreases |c.link.sends|
  {
    hide Unsent, Shifted;
    if c.queue == [] {
      assert Unsent(c.queue) == [] by { UnsentNothing(); }
    } else {
      var buffer := Remainder(c.queue[0]);
      assert c.queue[0] in c.queue;
      assert buffer != [];
      var (link, result) := Sending(c.link, buffer);
      var c' := c.(link := link);
      if c.link.sends != [] {
        assert forall o :: o in link.sends ==> o in c.link.sends;
        assert c.link.sends[0] in c.link.sends;
      }
      match result {
        case SendRetry => FlushKeepsQueue(c');
        case Sent(n) =>
          ShiftMovesBytes(c.queue, n);
          assert link.accepted + Unsent(Shifted(c.queue, n)) == c.queued;
          FlushKeepsQueue(c'.(queue := Shifted(c.queue, n)));
        case SendWouldBlock =>
        case SendError =>
      }
    }
  }

  /** Flushing leaves the state as it is or ends the connection, and closes the socket only in ending it. */
  lemma {:induction false} FlushEndsAs(c: Conn)
    ensures Flushed(c).state == c.state || Flushed(c).state == Dead
    ensures Flushed(c).state != Dead ==> Flushed(c).link.open == c.link.open
    decreases |c.link.sends|
  {
    hide Shifted, Remainder;
    if c.queue == [] {
    } else {
      var (link, result) := Sending(c.link, Remainder(c.queue[0]));
      var c' := c.(link := link);
      match result {
        case SendRetry => FlushEndsAs(c');
        case Sent(n) => FlushEndsAs(c'.(queue := Shifted(c.queue, n)));
        case SendWouldBlock =>
        case SendError =>
      }
    }
  }

  /** The socket's script was followed until it ended or blocked. */
  predicate Blocked(before: seq<SendOutcome>, after: seq<SendOutcome>) {
    && |after| <= |before| && after == before[|before| - |after|..]
    && (after == [] || (|after| < |before| && before[|before| - |after| - 1] == SendBlocks))
  }

  /** A flush goes on until nothing is queued, the socket blocks, or the connection is gone. */
  lemma {:induction false} FlushGoesOn(c: Conn)
    ensures var r := Flushed(c);
            r.state == Dead || (r.queue == [] && r.state != Closing) || Blocked(c.link.sends, r.link.sends)
    decreases |c.link.sends|
  {
    hide Shifted, Remainder;
    if c.queue == [] {
    } else {
      var (link, result) := Sending(c.link, Remainder(c.queue[0]));
      var c' := c.(link := link);
      match result {
        case SendRetry => FlushGoesOn(c');
        case Sent(n) => FlushGoesOn(c'.(queue := Shifted(c.queue, n)));
        case SendWouldBlock =>
        case SendError =>
      }
    }
  }

  /** A dead connection has closed its socket. */
  predicate ClosedIfDead(c: Conn) {
    c.state == Dead ==> !c.link.open
  }

  lemma {:induction false} FlushCloses(c: Conn)
    requires ClosedIfDead(c)
    ensures ClosedIfDead(Flushed(c))
    decreases |c.link.sends|
  {
    hide Shifted, Remainder;
    if c.queue == [] {
    } else {
      var (link, result) := Sending(c.link, Remainder(c.queue[0]));
      var c' := c.(link := link);
      match result {
        case SendRetry => FlushCloses(c');
        case Sent(n) => FlushCloses(c'.(queue := Shifted(c.queue, n)));
        case SendWouldBlock =>
        case SendError =>
      }
    }
  }

  lemma ShakeCloses(c: Conn)
    requires |c.rx.inbound| >= HandshakeSize(c.role) && c.state != Dead
    ensures ClosedIfDead(Shook(c))
  {
    hide Flushed, EncodedServerReply, DecodedClientHandshake, DecodedServerReply, JudgeClient;
    if c.role == Server {
      var n := HandshakeSize(c.role);
      var h := DecodedClientHandshake(c.rx.inbound[..n]);
      var c' := c.(rx := c.rx.(inbound := c.rx.inbound[n..], stage := AwaitHeader), handshakes := c.handshakes + 1,
                   remote := (h.subProtocol, h.subVersion));
      FlushCloses(Replying(c', ServerReply(PROTOCOL_TRTP, NormalizedReason(1))).(state := Closing));
      FlushCloses(MarkedEstablished(Replying(c', ServerReply(PROTOCOL_TRTP, 0))));
    }
  }

  lemma {:induction false} ParseCloses(c: Conn)
    requires c.Valid() && ClosedIfDead(c)
    ensures ClosedIfDead(Parsed(c))
    decreases |c.rx.inbound|
  {
    hide Step, Shook, HandshakeSize, Announced;
    if c.state == Dead || c.state == Closing {
    } else if c.rx.stage == AwaitHandshake {
      if |c.rx.inbound| >= HandshakeSize(c.role) {
        ShakeCloses(c);
        ShookShrinks(c);
        ParseCloses(Shook(c));
      }
    } else {
      match Step(c.max, c.rx) {
        case Wait =>
        case Refused(rx) =>
        case Next(rx) => ParseCloses(Moved(c, rx));
      }
    }
  }

  lemma UnsentNothing()
    ensures Unsent([]) == []
  {
  }

  lemma ServerShakeKeepsQueue(c: Conn, h: ClientHandshake)
    requires QueueSound(c)
    ensures QueueSound(ServerShook(c, h)) && c.queued <= ServerShook(c, h).queued
  {
    hide Flushed, EncodedServerReply, Unsent, JudgeClient;
    var c' := c.(remote := (h.subProtocol, h.subVersion));
    var reject, accept := ServerReply(PROTOCOL_TRTP, NormalizedReason(1)), ServerReply(PROTOCOL_TRTP, 0);
    EnqueueKeepsQueue(c', EncodedServerReply(reject));
    EnqueueKeepsQueue(c', EncodedServerReply(accept));
    FlushKeepsQueue(Replying(c', reject).(state := Closing));
    FlushKeepsQueue(MarkedEstablished(Replying(c', accept)));
  }

  lemma ShakeKeepsQueue(c: Conn)
    requires QueueSound(c) && |c.rx.inbound| >= HandshakeSize(c.role)
    ensures QueueSound(Shook(c)) && c.queued <= Shook(c).queued
  {
    hide ServerShook, DecodedClientHandshake, DecodedServerReply, Unsent;
    var n := HandshakeSize(c.role);
    var c' := c.(rx := c.rx.(inbound := c.rx.inbound[n..], stage := AwaitHeader), handshakes := c.handshakes + 1);
    if c.role == Server {
      ServerShakeKeepsQueue(c', DecodedClientHandshake(c.rx.inbound[..n]));
    }
  }

  lemma {:induction false} ParseKeepsQueue(c: Conn)
    requires c.Valid() && QueueSound(c)
    ensures QueueSound(Parsed(c)) && c.queued <= Parsed(c).queued
    decreases |c.rx.inbound|
  {
    hide Step, Shook, HandshakeSize, Announced, Unsent;
    if c.state == Dead || c.state == Closing {
    } else if c.rx.stage == AwaitHandshake {
      if |c.rx.inbound| >= HandshakeSize(c.role) {
        ShookShrinks(c);
        ShakeKeepsQueue(c);
        ParseKeepsQueue(Shook(c));
      }
    } else {
      match Step(c.max, c.rx) {
        case Wait =>
        case Refused(rx) =>
        case Next(rx) => ParseKeepsQueue(Moved(c, rx));
      }
    }
  }

  lemma ShookShrinks(c: Conn)
    requires c.Valid() && |c.rx.inbound| >= HandshakeSize(c.role)
    ensures Shook(c).Valid() && |Shook(c).rx.inbound| < |c.rx.inbound| && Shook(c).rx.stage == AwaitHeader
    ensures Shook(c).rx.asm == c.rx.asm && Shook(c).rx.parts == c.rx.parts && Shook(c).handshakes == c.handshakes + 1
  {
  }

  /** The read loop only fills the buffer; when it fails it also ends the connection. */
  lemma {:induction false} DrainOnlyReads(c: Conn)
    ensures var (r, ok) := Drained(c);
            && r.rx == c.rx.(inbound := r.rx.inbound)
            && r.link.accepted == c.link.accepted && r.link.sends == c.link.sends
            && (if ok then r == c.(rx := r.rx, link := r.link) && r.link.open == c.link.open
                else r == MarkedDead(c).(rx := r.rx, link := r.link) && (c.state != Dead ==> !r.link.open))
            && (!c.link.open ==> !ok && r.link == c.link && r.rx == c.rx)
    decreases |c.link.receives|
  {
    var (link, result) := Receiving(c.link);
    var c' := c.(link := link);
    match result {
      case ReceiveRetry => DrainOnlyReads(c');
      case Received(bytes) => DrainOnlyReads(c'.(rx := Append(c.rx, bytes)));
      case ReceiveWouldBlock =>
      case ReceiveError =>
    }
  }

  /** The spans that a flush hands to the socket, one for each send it issues. */
  function SpansSent(c: Conn): seq<Bytes>
    decreases |c.link.sends|
  {
    if c.queue == [] then []
    else
      var span := Remainder(c.queue[0]);
      var (link, result) := Sending(c.link, span);
      var c' := c.(link := link);
      match result
      case SendWouldBlock => [span]
      case SendRetry => [span] + SpansSent(c')
      case SendError => [span]
      case Sent(n) => [span] + SpansSent(c'.(queue := Shifted(c.queue, n)))
  }

  /** No send of a flush is issued with an empty span. */
  lemma {:induction false} NoSpanIsEmpty(c: Conn)
    requires QueueSound(c)
    ensures forall span :: span in SpansSent(c) ==> span != []
    decreases |c.link.sends|
  {
    hide Unsent, Shifted;
    if c.queue == [] {
    } else {
      var span := Remainder(c.queue[0]);
      assert c.queue[0] in c.queue;
      assert span != [];
      var (link, result) := Sending(c.link, span);
      var c' := c.(link := link);
      match result {
        case SendRetry => NoSpanIsEmpty(c');
        case Sent(n) =>
          ShiftMovesBytes(c.queue, n);
          assert link.accepted + Unsent(Shifted(c.queue, n)) == c.queued;
          NoSpanIsEmpty(c'.(queue := Shifted(c.queue, n)));
        case SendWouldBlock =>
        case SendError =>
      }
    }
  }

  /** Without a failure to receive, the read loop of an open socket ends in parsing. */
  lemma {:induction false} DrainSucceeds(c: Conn)
    requires c.link.open && ReceiveFails !in c.link.receives
    ensures Drained(c).1
    decreases |c.link.receives|
  {
    if c.link.receives == [] {
    } else {
      assert forall o :: o in c.link.receives[1..] ==> o in c.link.receives;
      assert c.link.receives[0] in c.link.receives;
      var (link, result) := Receiving(c.link);
      if result.Received? {
        DrainSucceeds(c.(link := link, rx := Append(c.rx, result.bytes)));
      } else if result.ReceiveRetry? {
        DrainSucceeds(c.(link := link));
      }
    }
  }

  // ------------------------------------------------------------------
  // States, stages and events
  // ------------------------------------------------------------------

  /** Everything fired once the handshake succeeded: on_established, then the transactions in order. */
  function Opening(c: Conn): seq<Event> {
    [OnEstablished] + Announced(c.rx.asm.dispatched)
  }

  ghost predicate Quiescent(c: Conn) {
    c.log == [] && c.rx.asm.dispatched == []
  }

  ghost predicate Ordered(c: Conn) {
    && c.handshakes == (if c.rx.stage == AwaitHandshake then 0 else 1)
    && match c.state
       case Idle => Quiescent(c) && c.rx.stage == AwaitHandshake && !c.link.open && c.queued == []
       case AwaitingReply => Quiescent(c) && c.rx.stage == AwaitHandshake && c.role == Client
       case AwaitingHandshake => Quiescent(c) && c.rx.stage == AwaitHandshake && c.role == Server
       case Established => c.log == Opening(c) && c.rx.stage != AwaitHandshake
       case Closing => Quiescent(c) && c.rx.stage != AwaitHandshake && c.role == Server
       case Dead =>
         && !c.link.open
         && (|| (c.log == [OnClosed] && c.rx.asm.dispatched == [])
             || (c.log == Opening(c) + [OnClosed] && c.rx.stage != AwaitHandshake))
  }

  lemma {:induction false} FlushKeepsOrder(c: Conn)
    requires Ordered(c) && c.state != Idle
    ensures Ordered(Flushed(c)) && (Flushed(c).state == c.state || Flushed(c).state == Dead)
    ensures c.state == Dead ==> Flushed(c).log == c.log && Flushed(c).link.accepted == c.link.accepted
    decreases |c.link.sends|
  {
    hide Shifted, Remainder, Announced;
    if c.queue == [] {
    } else {
      var (link, result) := Sending(c.link, Remainder(c.queue[0]));
      var c' := c.(link := link);
      match result {
        case SendRetry => FlushKeepsOrder(c');
        case Sent(n) => FlushKeepsOrder(c'.(queue := Shifted(c.queue, n)));
        case SendWouldBlock =>
        case SendError =>
      }
    }
  }

  lemma ServerShakeKeepsOrder(c: Conn, h: ClientHandshake)
    requires Quiescent(c) && c.role == Server && c.state == AwaitingHandshake
    requires c.rx.stage == AwaitHeader && c.handshakes == 1
    ensures Ordered(ServerShook(c, h))
    ensures ServerShook(c, h).state in {Established, Closing, Dead}
  {
    hide Flushed, EncodedServerReply, JudgeClient;
    var c' := c.(remote := (h.subProtocol, h.subVersion));
    assert Announced([]) == [];
    FlushKeepsOrder(Replying(c', ServerReply(PROTOCOL_TRTP, NormalizedReason(1))).(state := Closing));
    FlushKeepsOrder(MarkedEstablished(Replying(c', ServerReply(PROTOCOL_TRTP, 0))));
  }

  lemma ShakeKeepsOrder(c: Conn)
    requires Ordered(c) && c.state in {AwaitingReply, AwaitingHandshake}
    requires |c.rx.inbound| >= HandshakeSize(c.role)
    ensures Ordered(Shook(c))
    ensures Shook(c).state in {Established, Dead} || (Shook(c).state == Closing && c.role == Server)
  {
    hide ServerShook, DecodedClientHandshake, DecodedServerReply;
    assert Announced([]) == [];
    var n := HandshakeSize(c.role);
    var c' := c.(rx := c.rx.(inbound := c.rx.inbound[n..], stage := AwaitHeader), handshakes := c.handshakes + 1);
    if c.role == Server {
      ServerShakeKeepsOrder(c', DecodedClientHandshake(c.rx.inbound[..n]));
    }
  }

  lemma MoveKeepsOrder(c: Conn, rx: Rx)
    requires Ordered(c) && c.state == Established
    requires c.rx.asm.dispatched <= rx.asm.dispatched && rx.stage != AwaitHandshake
    ensures Ordered(Moved(c, rx))
  {
    var old', new' := c.rx.asm.dispatched, rx.asm.dispatched;
    assert new' == old' + new'[|old'|..];
    assert Announced(new') == Announced(old') + Announced(new'[|old'|..]);
  }

  /** How states may follow one another in one call. */
  predicate Onward(s: State, t: State) {
    || s == t
    || t == Dead
    || (s == Idle && t in {AwaitingReply, AwaitingHandshake})
    || (s == AwaitingReply && t == Established)
    || (s == AwaitingHandshake && t in {Established, Closing})
  }

  lemma {:induction false} ParseKeepsOrder(c: Conn)
    requires c.Valid() && Ordered(c) && c.state != Idle
    ensures Ordered(Parsed(c)) && Onward(c.state, Parsed(c).state)
    ensures c.state == Dead ==> Parsed(c) == c
    decreases |c.rx.inbound|
  {
    hide Step, Shook, HandshakeSize, Announced;
    if c.state == Dead || c.state == Closing {
    } else if c.rx.stage == AwaitHandshake {
      if |c.rx.inbound| >= HandshakeSize(c.role) {
        ShookShrinks(c);
        ShakeKeepsOrder(c);
        ParseKeepsOrder(Shook(c));
      }
    } else {
      StepLeavesHandshake(c.max, c.rx);
      match Step(c.max, c.rx) {
        case Wait =>
        case Refused(rx) =>
        case Next(rx) =>
          MoveKeepsOrder(c, rx);
          ParseKeepsOrder(Moved(c, rx));
      }
    }
  }

  lemma StepLeavesHandshake(max: u32, rx: Rx)
    requires rx.Valid() && rx.stage != AwaitHandshake
    ensures var r := Step(max, rx);
            && (r.Refused? ==> r.rx.stage != AwaitHandshake && r.rx.asm == rx.asm)
  {
  }
}
