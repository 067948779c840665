/** Two connected peers: what one end says, and what the other makes of as much of it as it hears. */
module Delivery {
  import opened Endian
  import opened Wire
  import opened Reassembly
  import opened Receiver
  import opened Socket
  import opened Connection
  import opened Lifecycle
  import opened Runs
  import opened Streams

  // ------------------------------------------------------------------
  // The sending end
  // ------------------------------------------------------------------

  /**
   * All an end has ever queued: its handshake bytes, once it sent them, then its requests in order.
   * An end that has not sent them has had no byte accepted, and no request unless it is dead.
   */
  ghost predicate Speaks(x: Conn, e0: Hooks, prologue: Bytes, began: bool, sent: seq<Request>)
    requires e0.Valid()
  {
    && x.queued == (if began then prologue else []) + CodedAll(e0, sent).1
    && x.encoder == CodedAll(e0, sent).0
    && (!began ==> x.link.accepted == [] && (x.state != Dead ==> sent == []))
  }

  /** What of an end's queued bytes the other may come to hear. */
  function Said(x: Conn, began: bool): Bytes {
    if began then x.queued else []
  }

  lemma RequestExtendsSpeech(x: Conn, e0: Hooks, prologue: Bytes, began: bool, sent: seq<Request>, q: Request)
    requires e0.Valid() && x.Valid() && Speaks(x, e0, prologue, began, sent) && (began || x.state == Dead)
    requires x.state == Dead ==> Queued(x, q).state == Dead && Queued(x, q).link.accepted == x.link.accepted
    ensures Speaks(Queued(x, q), e0, prologue, began, sent + [q])
    ensures Queued(x, q).rx == x.rx && SameSetup(x.(encoder := Queued(x, q).encoder), Queued(x, q))
    ensures Queued(x, q).handshakes == x.handshakes
    ensures x.queued <= Queued(x, q).queued
  {
    hide Flushed, Coded;
    assert (sent + [q])[..|sent|] == sent;
    var (e, all) := CodedAll(e0, sent);
    var (e', bytes) := Coded(e, q);
    Associate(prologue, all, bytes);
  }

  // ------------------------------------------------------------------
  // The receiving end
  // ------------------------------------------------------------------

  predicate Live(c: Conn) {
    c.state == AwaitingReply || c.state == AwaitingHandshake || c.state == Established
  }

  function Unheard(hooks: Hooks): Rx {
    Rx(AwaitHandshake, [], NO_HEADER, 0, hooks, NOTHING, [])
  }

  /**
   * The receive state of a new connection that was handed these bytes and accepted the handshake,
   * and whether it refused something in them.
   */
  function Absorbed(role: Role, max: u32, hooks: Hooks, bytes: Bytes): (Rx, bool)
    requires hooks.Valid()
  {
    var n := HandshakeSize(role);
    if |bytes| < n then (Unheard(hooks).(inbound := bytes), false)
    else Swallowed(max, Append(Unheard(hooks).(stage := AwaitHeader), bytes[n..]))
  }

  /** A handshake message the given end accepts. */
  predicate Welcome(role: Role, prologue: Bytes) {
    && |prologue| == HandshakeSize(role)
    && TransactionTag(prologue)
    && match role
       case Server => prologue[8..10] == [0x00, 0x01]
       case Client => prologue[4..8] == [0x00, 0x00, 0x00, 0x00]
  }

  /** What an end has received is a front of what the other has said. */
  ghost predicate Hears(y: Conn, e0: Hooks, speech: Bytes, sent: seq<Request>)
    requires e0.Valid()
  {
    && y.state != Idle && y.state != Closing
    && y.link.delivered <= speech
    && y.rx.asm.dispatched <= ExpectedAll(FittingFront(sent, y.max), e0.Hooks?)
    && (Live(y) ==> Absorbed(y.role, y.max, e0, y.link.delivered) == (y.rx, false))
    && (forall q :: q in sent ==> Announceable(q))
  }

  /** Everything but the receive stage can change without changing what was heard. */
  lemma HearingIsInTheReceiver(y: Conn, y': Conn, e0: Hooks, speech: Bytes, sent: seq<Request>)
    requires e0.Valid() && Hears(y, e0, speech, sent)
    requires y'.rx == y.rx && y'.max == y.max && y'.role == y.role && y'.link.delivered == y.link.delivered
    requires y'.state == y.state || y'.state == Dead
    ensures Hears(y', e0, speech, sent)
  {
    hide Absorbed;
  }

  lemma MoreSpeech(y: Conn, e0: Hooks, speech: Bytes, speech': Bytes, sent: seq<Request>)
    requires e0.Valid() && Hears(y, e0, speech, sent) && speech <= speech'
    ensures Hears(y, e0, speech', sent)
  {
    hide Absorbed;
  }

  lemma MoreRequests(y: Conn, e0: Hooks, speech: Bytes, sent: seq<Request>, q: Request)
    requires e0.Valid() && Hears(y, e0, speech, sent) && Announceable(q)
    ensures Hears(y, e0, speech, sent + [q])
  {
    hide Absorbed, Expected, FittingFront;
    FrontGrows(sent, q, y.max);
    ExpectedFront(FittingFront(sent, y.max), FittingFront(sent + [q], y.max), e0.Hooks?);
  }

  lemma ExpectedFront(front: seq<Request>, qs: seq<Request>, coded: bool)
    requires front <= qs
    ensures ExpectedAll(front, coded) <= ExpectedAll(qs, coded)
  {
    hide Expected;
  }

  lemma {:induction false} DrainMoves(c: Conn) returns (more: Bytes)
    ensures var (r, ok) := Drained(c);
            && r.rx == Append(c.rx, more)
            && r.link.delivered == c.link.delivered + more
    decreases |c.link.receives|
  {
    var (link, result) := Receiving(c.link);
    var c' := c.(link := link);
    match result {
      case ReceiveRetry => more := DrainMoves(c');
      case Received(bytes) =>
        var rest := DrainMoves(c'.(rx := Append(c.rx, bytes)));
        more := bytes + rest;
        Associate(c.rx.inbound, bytes, rest);
        Associate(c.link.delivered, bytes, rest);
      case ReceiveWouldBlock =>
        more := [];
        assert c.rx.inbound + more == c.rx.inbound;
      case ReceiveError =>
        more := [];
        assert c.rx.inbound + more == c.rx.inbound;
    }
  }

  /** Parsing after the handshake is the receive engine, and death is its refusal. */
  lemma {:induction false} ParseSwallows(c: Conn)
    requires c.Valid() && c.state == Established && c.rx.stage != AwaitHandshake
    ensures var (rx, refused) := Swallowed(c.max, c.rx);
            && Parsed(c).rx == rx
            && Parsed(c).state == (if refused then Dead else Established)
            && Parsed(c).queued == c.queued && Parsed(c).handshakes == c.handshakes
    decreases |c.rx.inbound|
  {
    hide Step, Announced;
    match Step(c.max, c.rx) {
      case Wait =>
      case Refused(rx) =>
      case Next(rx) => ParseSwallows(Moved(c, rx));
    }
  }

  /** An accepted handshake establishes, or dies in sending its reply. */
  lemma ShakeWelcomes(c: Conn)
    requires c.Valid() && |c.rx.inbound| >= HandshakeSize(c.role) && c.state != Dead
    requires Welcome(c.role, c.rx.inbound[..HandshakeSize(c.role)])
    ensures Shook(c).state == Established || Shook(c).state == Dead
    ensures Shook(c).Valid()
    ensures Shook(c).queued ==
            c.queued + if c.role == Server then EncodedServerReply(ServerReply(PROTOCOL_TRTP, 0)) else []
  {
    hide DecodedServerReply, DecodedClientHandshake, EncodedServerReply, TransactionTag, JudgeClient, ReplyAccepted;
    if c.role == Client {
      AcceptanceOfBytes(c.rx.inbound[..HandshakeSize(c.role)]);
    } else {
      hide Flushed;
      VerdictOfBytes(c.rx.inbound[..HandshakeSize(c.role)]);
      var n := HandshakeSize(c.role);
      var c' := c.(rx := c.rx.(inbound := c.rx.inbound[n..], stage := AwaitHeader), handshakes := c.handshakes + 1);
      var h := DecodedClientHandshake(c.rx.inbound[..n]);
      var c'' := MarkedEstablished(Replying(c'.(remote := (h.subProtocol, h.subVersion)),
                                            ServerReply(PROTOCOL_TRTP, 0)));
      FlushEndsAs(c'');
    }
  }

  /** Parsing from the handshake stage on, when the bytes held begin with a welcome. */
  lemma ParseFromHandshake(c: Conn)
    requires c.Valid() && Live(c) && c.rx.stage == AwaitHandshake
    requires |c.rx.inbound| >= HandshakeSize(c.role) ==> Welcome(c.role, c.rx.inbound[..HandshakeSize(c.role)])
    ensures var n, r := HandshakeSize(c.role), Parsed(c);
            if |c.rx.inbound| < n then r == c
            else
              var start := c.rx.(stage := AwaitHeader, inbound := c.rx.inbound[n..]);
              && r.handshakes == c.handshakes + 1
              && r.queued == c.queued
                 + (if c.role == Server then EncodedServerReply(ServerReply(PROTOCOL_TRTP, 0)) else [])
              && (r.state == Established || r.state == Dead)
              && (r.state == Established ==> (r.rx, false) == Swallowed(c.max, start))
              && (r.rx == Swallowed(c.max, start).0 || r.rx == start)
  {
    hide Swallowed, Shook, Welcome, EncodedServerReply;
    if |c.rx.inbound| >= HandshakeSize(c.role) {
      ShakeWelcomes(c);
      if Shook(c).state == Established {
        ParseSwallows(Shook(c));
      }
    }
  }

  /** The bytes heard, as far as they go, begin with the handshake and go on with the coded requests. */
  lemma SpeechFront(role: Role, prologue: Bytes, stream: Bytes, heard: Bytes)
    requires |prologue| == HandshakeSize(role) && heard <= prologue + stream && |heard| >= HandshakeSize(role)
    ensures heard[..HandshakeSize(role)] == prologue
    ensures |heard| - |prologue| <= |stream| && heard[HandshakeSize(role)..] == stream[..|heard| - |prologue|]
  {
  }

  lemma WelcomeSize(role: Role, prologue: Bytes)
    requires Welcome(role, prologue)
    ensures |prologue| == HandshakeSize(role) > 0
  {
  }

  /** A new receiver's state once the handshake is over. */
  function Ready(hooks: Hooks): (rx: Rx)
    requires hooks.Valid()
    ensures rx.Valid() && Clean(rx, hooks) && rx.asm.dispatched == []
  {
    Unheard(hooks).(stage := AwaitHeader)
  }

  lemma AbsorbedOpens(role: Role, max: u32, hooks: Hooks, bytes: Bytes)
    requires hooks.Valid() && |bytes| >= HandshakeSize(role)
    ensures Absorbed(role, max, hooks, bytes) == Swallowed(max, Append(Ready(hooks), bytes[HandshakeSize(role)..]))
  {
    hide Swallowed;
  }

  /**
   * What the first `n` bytes of coded requests must lead to: a front of the requests before the
   * first that does not fit, all of these once their bytes are there, and then a refusal.
   */
  ghost predicate TakenAsFar(max: u32, e0: Hooks, qs: seq<Request>, n: nat, rx: Rx, refused: bool)
    requires e0.Valid()
  {
    var front := FittingFront(qs, max);
    var k := |CodedAll(e0, front).1|;
    && rx.asm.dispatched <= ExpectedAll(front, e0.Hooks?)
    && (n >= k ==> rx.asm.dispatched == ExpectedAll(front, e0.Hooks?))
    && (refused <==> front != qs && n >= k + HEADER_SIZE)
  }

  /** The front of a stream as a receiver takes it that has dispatched nothing yet. */
  lemma FrontFromNothing(max: u32, rx: Rx, e0: Hooks, qs: seq<Request>, n: nat)
    requires e0.Valid() && rx.Valid() && Clean(rx, e0) && rx.asm.dispatched == []
    requires n <= |CodedAll(e0, qs).1| && forall q :: q in qs ==> Announceable(q)
    ensures var (r, refused) := Swallowed(max, Append(rx, CodedAll(e0, qs).1[..n]));
            TakenAsFar(max, e0, qs, n, r, refused)
  {
    hide Swallowed, CodedAll, Announceable, ExpectedAll, FittingFront, Fits, Append;
    FrontArrives(max, rx, e0, qs, n);
    var expected := ExpectedAll(FittingFront(qs, max), e0.Hooks?);
    assert rx.asm.dispatched + expected == expected;
  }

  /** What was absorbed of a speech, however far it was heard. */
  lemma AbsorbedFront(role: Role, max: u32, e0: Hooks, prologue: Bytes, sent: seq<Request>, heard: Bytes)
    requires e0.Valid() && |prologue| == HandshakeSize(role) <= |heard| && heard <= prologue + CodedAll(e0, sent).1
    requires forall q :: q in sent ==> Announceable(q)
    ensures var (rx, refused) := Absorbed(role, max, e0, heard);
            TakenAsFar(max, e0, sent, |heard| - |prologue|, rx, refused)
  {
    hide Swallowed, CodedAll, Announceable, TakenAsFar, Absorbed, Ready, Append, Clean;
    SpeechFront(role, prologue, CodedAll(e0, sent).1, heard);
    AbsorbedOpens(role, max, e0, heard);
    FrontFromNothing(max, Ready(e0), e0, sent, |heard| - |prologue|);
  }

  /** More bytes absorbed behind those already absorbed. */
  lemma AbsorbedMore(role: Role, max: u32, e0: Hooks, heard: Bytes, more: Bytes)
    requires e0.Valid() && |heard| >= HandshakeSize(role) && !Absorbed(role, max, e0, heard).1
    ensures Absorbed(role, max, e0, heard).0.Valid() && Absorbed(role, max, e0, heard).0.stage != AwaitHandshake
    ensures Absorbed(role, max, e0, heard + more) == Swallowed(max, Append(Absorbed(role, max, e0, heard).0, more))
  {
    hide Swallowed;
    var n := HandshakeSize(role);
    var start := Append(Unheard(e0).(stage := AwaitHeader), heard[n..]);
    SwallowSplits(max, start, more);
    assert (heard + more)[n..] == heard[n..] + more;
    assert start.inbound == heard[n..] && Append(start, more).inbound == (heard + more)[n..];
    assert Append(start, more) == Append(Unheard(e0).(stage := AwaitHeader), (heard + more)[n..]);
  }

  /** Everything heard before the refusal is dispatched, and the refusal is of the first request that does not fit. */
  ghost predicate RefusedInTime(r: Conn, e0: Hooks, sent: seq<Request>) {
    && r.rx.asm.dispatched == ExpectedAll(FittingFront(sent, r.max), e0.Hooks?)
    && FittingFront(sent, r.max) != sent
  }

  /** Parsing the first bytes heard, all of which are still in the buffer. */
  lemma HearsFirst(r: Conn, e0: Hooks, prologue: Bytes, sent: seq<Request>)
    requires e0.Valid() && r.Valid() && Live(r) && Welcome(r.role, prologue)
    requires r.rx == Unheard(e0).(inbound := r.link.delivered) && |r.link.delivered| >= HandshakeSize(r.role)
    requires r.link.delivered <= prologue + CodedAll(e0, sent).1
    requires forall q :: q in sent ==> Announceable(q)
    ensures Hears(Parsed(r), e0, prologue + CodedAll(e0, sent).1, sent)
    ensures Parsed(r).handshakes == r.handshakes + 1
    ensures Parsed(r).queued ==
            r.queued + if r.role == Server then EncodedServerReply(ServerReply(PROTOCOL_TRTP, 0)) else []
  {
    hide Parsed, Swallowed, CodedAll, Welcome, Announceable, Expected, EncodedServerReply, FittingFront;
    var heard, n := r.link.delivered, HandshakeSize(r.role);
    WelcomeSize(r.role, prologue);
    SpeechFront(r.role, prologue, CodedAll(e0, sent).1, heard);
    AbsorbedFront(r.role, r.max, e0, prologue, sent, heard);
    var start := r.rx.(stage := AwaitHeader, inbound := r.rx.inbound[n..]);
    assert Append(Unheard(e0).(stage := AwaitHeader), heard[n..]) == start;
    ParseFromHandshake(r);
  }

  /** Parsing more bytes behind those already parsed. */
  lemma HearsMore(y: Conn, r: Conn, more: Bytes, e0: Hooks, prologue: Bytes, sent: seq<Request>)
    requires e0.Valid() && y.Valid() && r.Valid() && Welcome(y.role, prologue)
    requires Hears(y, e0, prologue + CodedAll(e0, sent).1, sent)
    requires y.state == Established && y.rx.stage != AwaitHandshake
    requires r == y.(rx := Append(y.rx, more), link := r.link) && r.link.delivered == y.link.delivered + more
    requires r.link.delivered <= prologue + CodedAll(e0, sent).1
    ensures Hears(Parsed(r), e0, prologue + CodedAll(e0, sent).1, sent)
    ensures Parsed(r).handshakes == r.handshakes && Parsed(r).queued == r.queued
    ensures Parsed(r).state == Dead ==> RefusedInTime(Parsed(r), e0, sent)
  {
    hide Parsed, Swallowed, CodedAll, Welcome, Announceable, Expected, FittingFront, Absorbed;
    WelcomeSize(y.role, prologue);
    HeardTooLittle(y.role, y.max, e0, y.link.delivered);
    AbsorbedMore(y.role, y.max, e0, y.link.delivered, more);
    AbsorbedFront(y.role, y.max, e0, prologue, sent, r.link.delivered);
    ParseSwallows(r);
  }

  /** Reading keeps the receiving end in tune, however much or little of the speech it is handed. */
  lemma ReadingHears(y: Conn, e0: Hooks, prologue: Bytes, began: bool, sent: seq<Request>)
    requires e0.Valid() && Sane(y) && Welcome(y.role, prologue)
    requires var speech := if began then prologue + CodedAll(e0, sent).1 else [];
             && Hears(y, e0, speech, sent)
             && Readable(y).link.delivered <= speech
    ensures Hears(Readable(y), e0, if began then prologue + CodedAll(e0, sent).1 else [], sent)
    ensures Readable(y).handshakes == y.handshakes ==> Readable(y).queued == y.queued
    ensures Readable(y).handshakes != y.handshakes ==>
              Readable(y).handshakes == y.handshakes + 1 && Readable(y).queued ==
              y.queued + if y.role == Server then EncodedServerReply(ServerReply(PROTOCOL_TRTP, 0)) else []
    ensures y.state == Established && Readable(y).state == Dead && Drained(y).1 ==> RefusedInTime(Readable(y), e0, sent)
  {
    hide Parsed, Drained, Swallowed, CodedAll, Welcome, Announceable, Expected, QueueSound, Assembled,
         EncodedServerReply, Absorbed, FittingFront, RefusedInTime;
    if Live(y) {
      DrainOnlyReads(y);
      var more := DrainMoves(y);
      var (r, ok) := Drained(y);
      if ok {
        var n := HandshakeSize(y.role);
        WelcomeSize(y.role, prologue);
        HeardTooLittle(y.role, y.max, e0, y.link.delivered);
        HeardTooLittle(y.role, y.max, e0, r.link.delivered);
        if y.rx.stage != AwaitHandshake {
          HearsMore(y, r, more, e0, prologue, sent);
        } else {
          HeardSoFar(y.role, y.max, e0, y.link.delivered);
          HeardSoFar(y.role, y.max, e0, r.link.delivered);
          assert r.rx == Unheard(e0).(inbound := r.link.delivered);
          if |r.link.delivered| >= n {
            HearsFirst(r, e0, prologue, sent);
          } else {
            ParseFromHandshake(r);
          }
        }
      }
    }
  }

  lemma HeardSoFar(role: Role, max: u32, hooks: Hooks, bytes: Bytes)
    requires hooks.Valid()
    ensures |bytes| < HandshakeSize(role) ==>
              Absorbed(role, max, hooks, bytes) == (Unheard(hooks).(inbound := bytes), false)
  {
  }

  lemma HeardTooLittle(role: Role, max: u32, hooks: Hooks, bytes: Bytes)
    requires hooks.Valid()
    ensures Absorbed(role, max, hooks, bytes).0.stage == AwaitHandshake <==> |bytes| < HandshakeSize(role)
  {
    hide Swallowed;
  }

  /**
   * A live receiving end that was handed the bytes of every request before the first that does not
   * fit has dispatched exactly these; handed all of the speech, it has every request, and all fit.
   */
  lemma AllHeard(y: Conn, e0: Hooks, prologue: Bytes, sent: seq<Request>)
    requires e0.Valid() && Live(y) && Welcome(y.role, prologue)
    requires Hears(y, e0, prologue + CodedAll(e0, sent).1, sent)
    ensures |y.link.delivered| >= |prologue| + |CodedAll(e0, FittingFront(sent, y.max)).1| ==>
              y.rx.asm.dispatched == ExpectedAll(FittingFront(sent, y.max), e0.Hooks?)
    ensures y.link.delivered == prologue + CodedAll(e0, sent).1 ==>
              FittingFront(sent, y.max) == sent && y.rx.asm.dispatched == ExpectedAll(sent, e0.Hooks?)
  {
    hide Absorbed, CodedAll, Announceable, Expected, Welcome, FittingFront, Coded;
    WelcomeSize(y.role, prologue);
    var front, all := FittingFront(sent, y.max), CodedAll(e0, sent).1;
    if |y.link.delivered| >= |prologue| {
      AbsorbedFront(y.role, y.max, e0, prologue, sent, y.link.delivered);
    }
    if y.link.delivered == prologue + all && front != sent {
      assert front == sent[..|front|] && |front| < |sent|;
      CodedNext(e0, sent, |front|);
    }
  }
}
