/** Parsing does not depend on how the byte stream was cut into reads. */
module Fragmentation {
  import opened Endian
  import opened Wire
  import opened Receiver
  import opened Socket
  import opened Connection

  /** A connection to which its socket delivered more bytes, behind those it holds unparsed. */
  function Fed(c: Conn, more: Bytes): Conn {
    c.(rx := Append(c.rx, more), link := Grown(c.link, more))
  }

  function Grown(l: Link, more: Bytes): Link {
    l.(delivered := l.delivered + more)
  }

  lemma SendIgnoresDelivered(l: Link, buffer: Bytes, more: Bytes)
    ensures Sending(Grown(l, more), buffer) == (Grown(Sending(l, buffer).0, more), Sending(l, buffer).1)
  {
  }

  lemma {:induction false} FlushIgnoresInbound(c: Conn, more: Bytes)
    ensures Flushed(Fed(c, more)) == Fed(Flushed(c), more)
    decreases |c.link.sends|
  {
    hide Sending, Shifted, Remainder;
    if c.queue == [] {
    } else {
      var (link, result) := Sending(c.link, Remainder(c.queue[0]));
      var c' := c.(link := link);
      SendIgnoresDelivered(c.link, Remainder(c.queue[0]), more);
      match result {
        case SendRetry =>
          FlushIgnoresInbound(c', more);
          assert Fed(c, more).(link := Grown(link, more)) == Fed(c', more);
        case Sent(n) =>
          var c'' := c'.(queue := Shifted(c.queue, n));
          FlushIgnoresInbound(c'', more);
          assert Fed(c', more).(queue := Shifted(c.queue, n)) == Fed(c'', more);
        case SendWouldBlock =>
        case SendError =>
      }
    }
  }

  lemma ServerShakeIgnoresRest(c: Conn, h: ClientHandshake, more: Bytes)
    ensures ServerShook(Fed(c, more), h) == Fed(ServerShook(c, h), more)
  {
    hide Flushed, EncodedServerReply, JudgeClient;
    var c' := c.(remote := (h.subProtocol, h.subVersion));
    FlushIgnoresInbound(Replying(c', ServerReply(PROTOCOL_TRTP, NormalizedReason(1))).(state := Closing), more);
    FlushIgnoresInbound(MarkedEstablished(Replying(c', ServerReply(PROTOCOL_TRTP, 0))), more);
  }

  /** The handshake step looks at its own bytes only. */
  lemma ShakeIgnoresRest(c: Conn, more: Bytes)
    requires |c.rx.inbound| >= HandshakeSize(c.role)
    ensures Shook(Fed(c, more)) == Fed(Shook(c), more)
  {
    hide ServerShook, ClientShook, DecodedClientHandshake, DecodedServerReply;
    var n := HandshakeSize(c.role);
    assert (c.rx.inbound + more)[..n] == c.rx.inbound[..n];
    assert (c.rx.inbound + more)[n..] == c.rx.inbound[n..] + more;
    var c' := c.(rx := c.rx.(inbound := c.rx.inbound[n..], stage := AwaitHeader), handshakes := c.handshakes + 1);
    match c.role {
      case Server => ServerShakeIgnoresRest(c', DecodedClientHandshake(c.rx.inbound[..n]), more);
      case Client => ClientShakeIgnoresRest(c', DecodedServerReply(c.rx.inbound[..n]), more);
    }
  }

  lemma ClientShakeIgnoresRest(c: Conn, reply: ServerReply, more: Bytes)
    ensures ClientShook(Fed(c, more), reply) == Fed(ClientShook(c, reply), more)
  {
  }

  /**
   * Parsing a buffer and then the bytes behind it is parsing both at once; a connection that the
   * first buffer killed keeps the rest unread and is otherwise the same.
   */
  lemma {:induction false} ParseSplits(c: Conn, more: Bytes)
    requires c.Valid()
    ensures var r := Parsed(c);
            Parsed(Fed(c, more)) == if r.state == Dead then Fed(r, more) else Parsed(Fed(r, more))
    decreases |c.rx.inbound|
  {
    hide Step, Shook, HandshakeSize, Announced;
    if c.state == Dead || c.state == Closing {
    } else if c.rx.stage == AwaitHandshake {
      if |c.rx.inbound| >= HandshakeSize(c.role) {
        ShakeIgnoresRest(c, more);
        ShookValid(c);
        ParseSplits(Shook(c), more);
      }
    } else {
      StepExtends(c.max, c.rx, more);
      match Step(c.max, c.rx) {
        case Wait =>
        case Refused(rx) =>
        case Next(rx) =>
          ParseSplits(Moved(c, rx), more);
          assert Fed(Moved(c, rx), more) == Moved(Fed(c, more), Append(rx, more));
      }
    }
  }

  lemma ShookValid(c: Conn)
    requires c.Valid() && |c.rx.inbound| >= HandshakeSize(c.role)
    ensures Shook(c).Valid() && |Shook(c).rx.inbound| < |c.rx.inbound|
  {
  }

  // ------------------------------------------------------------------
  // Reads
  // ------------------------------------------------------------------

  type Burst = seq<ReceiveOutcome>

  /** A read that blocks after what it delivers: chunks and interruptions, then nothing more. */
  predicate Quiet(b: Burst) {
    forall o :: o in b ==> o.Delivers? || o.ReceiveInterrupted?
  }

  function Content(b: Burst): Bytes {
    if b == [] then []
    else (if b[0].Delivers? then b[0].bytes else []) + Content(b[1..])
  }

  function Faced(c: Conn, b: Burst): Conn {
    c.(link := c.link.(receives := b))
  }

  lemma FeedTwice(c: Conn, a: Bytes, b: Bytes)
    ensures Fed(Fed(c, a), b) == Fed(c, a + b)
  {
    assert c.rx.inbound + a + b == c.rx.inbound + (a + b);
    assert c.link.delivered + a + b == c.link.delivered + (a + b);
  }

  lemma {:induction false} DrainDelivers(c: Conn, b: Burst)
    requires Quiet(b) && c.link.open
    ensures Drained(Faced(c, b)) == (Fed(Faced(c, []), Content(b)), true)
    decreases |b|
  {
    if b == [] {
      assert c.link.delivered + [] == c.link.delivered && c.rx.inbound + [] == c.rx.inbound;
    } else {
      assert b[0] in b;
      if b[0].Delivers? {
        var bytes := b[0].bytes;
        DrainDelivers(Fed(c, bytes), b[1..]);
        FeedTwice(Faced(c, []), bytes, Content(b[1..]));
        assert Drained(Faced(c, b)) == Drained(Faced(Fed(c, bytes), b[1..]));
      } else {
        DrainDelivers(c, b[1..]);
        assert Content(b) == Content(b[1..]);
      }
    }
  }

  /** One service_readable call after another, each facing its own burst. */
  function ReadAll(c: Conn, bursts: seq<Burst>): (r: Conn)
    requires c.Valid()
    ensures r.Valid()
  {
    if bursts == [] then c
    else Readable(Faced(ReadAll(c, bursts[..|bursts| - 1]), bursts[|bursts| - 1]))
  }

  function Together(bursts: seq<Burst>): Burst {
    if bursts == [] then [] else Together(bursts[..|bursts| - 1]) + bursts[|bursts| - 1]
  }

  lemma {:induction false} ContentJoins(a: Burst, b: Burst)
    ensures Content(a + b) == Content(a) + Content(b)
  {
    if a == [] {
      assert a + b == b;
    } else {
      assert (a + b)[1..] == a[1..] + b;
      ContentJoins(a[1..], b);
    }
  }

  lemma {:induction false} TogetherQuiet(bursts: seq<Burst>)
    requires forall b :: b in bursts ==> Quiet(b)
    ensures Quiet(Together(bursts))
  {
    if bursts == [] {
    } else {
      TogetherQuiet(bursts[..|bursts| - 1]);
      assert Quiet(bursts[|bursts| - 1]);
    }
  }

  lemma QuietRead(c: Conn, b: Burst)
    requires c.Valid() && c.link.open && c.state != Dead && Quiet(b)
    ensures Readable(Faced(c, b)) == Parsed(Fed(Faced(c, []), Content(b)))
  {
    hide Parsed, Content, Drained;
    DrainDelivers(c, b);
  }

  /** Everything but what the socket still holds and what a dead connection leaves unread. */
  function Remains(c: Conn): Conn {
    c.(rx := c.rx.(inbound := []), link := c.link.(receives := [], delivered := []))
  }

  /** The socket is open exactly while the connection lives (close() has not been called). */
  predicate Linked(c: Conn) {
    c.link.open == (c.state != Dead)
  }

  lemma {:induction false} FlushKeepsLink(c: Conn)
    requires Linked(c)
    ensures Linked(Flushed(c))
    decreases |c.link.sends|
  {
    hide Shifted, Remainder;
    if c.queue == [] {
    } else {
      var (link, result) := Sending(c.link, Remainder(c.queue[0]));
      var c' := c.(link := link);
      match result {
        case SendRetry => FlushKeepsLink(c');
        case Sent(n) => FlushKeepsLink(c'.(queue := Shifted(c.queue, n)));
        case SendWouldBlock =>
        case SendError =>
      }
    }
  }

  lemma ServerShakeKeepsLink(c: Conn, h: ClientHandshake)
    requires Linked(c) && c.state != Dead
    ensures Linked(ServerShook(c, h))
  {
    hide Flushed, EncodedServerReply;
    var c' := c.(remote := (h.subProtocol, h.subVersion));
    FlushKeepsLink(Replying(c', ServerReply(PROTOCOL_TRTP, NormalizedReason(1))).(state := Closing));
    FlushKeepsLink(MarkedEstablished(Replying(c', ServerReply(PROTOCOL_TRTP, 0))));
  }

  lemma ShakeKeepsLink(c: Conn)
    requires Linked(c) && c.state != Dead && |c.rx.inbound| >= HandshakeSize(c.role)
    ensures Linked(Shook(c))
  {
    hide ServerShook, DecodedClientHandshake, DecodedServerReply;
    var n := HandshakeSize(c.role);
    var c' := c.(rx := c.rx.(inbound := c.rx.inbound[n..], stage := AwaitHeader), handshakes := c.handshakes + 1);
    if c.role == Server {
      ServerShakeKeepsLink(c', DecodedClientHandshake(c.rx.inbound[..n]));
    }
  }

  lemma {:induction false} ParseKeepsLink(c: Conn)
    requires c.Valid() && Linked(c)
    ensures Linked(Parsed(c))
    decreases |c.rx.inbound|
  {
    hide Step, Shook, HandshakeSize, Announced;
    if c.state == Dead || c.state == Closing {
    } else if c.rx.stage == AwaitHandshake {
      if |c.rx.inbound| >= HandshakeSize(c.role) {
        ShookValid(c);
        ShakeKeepsLink(c);
        ParseKeepsLink(Shook(c));
      }
    } else {
      match Step(c.max, c.rx) {
        case Wait =>
        case Refused(rx) =>
        case Next(rx) => ParseKeepsLink(Moved(c, rx));
      }
    }
  }

  /**
   * Fragmentation independence: however a stream is cut into reads, the connection ends in the same
   * state with the same events, partial entries and sent bytes as after one read of it all; and
   * unless it is dead, with the same stage, pending header and leftover bytes.
   */
  lemma {:induction false} CutsDoNotMatter(c: Conn, bursts: seq<Burst>)
    requires c.Valid() && Linked(c) && c.state != Dead
    requires bursts != [] && forall b :: b in bursts ==> Quiet(b)
    ensures var many, once := ReadAll(c, bursts), Readable(Faced(c, Together(bursts)));
            && Linked(many)
            && Remains(many) == Remains(once)
            && (many.state != Dead ==> many == once)
  {
    hide Parsed, Content, Drained, Quiet, Readable, ReadAll, Linked, Together, Remains;
    var front, last := bursts[..|bursts| - 1], bursts[|bursts| - 1];
    assert Quiet(last) by { assert last in bursts; }
    assert front != [] || Together(bursts) == last by { TogetherOne(bursts); }
    ReadAllSteps(c, bursts);
    if front == [] {
      ReadOnce(c, last);
    } else {
      CutsDoNotMatter(c, front);
      TogetherQuiet(front);
      TogetherQuiet(bursts);
      assert Together(bursts) == Together(front) + last by { TogetherOne(bursts); }
      AnotherBurst(c, ReadAll(c, front), Together(front), last);
    }
  }

  lemma TogetherOne(bursts: seq<Burst>)
    requires bursts != []
    ensures Together(bursts) == Together(bursts[..|bursts| - 1]) + bursts[|bursts| - 1]
    ensures |bursts| == 1 ==> Together(bursts) == bursts[0]
  {
  }

  lemma ReadAllSteps(c: Conn, bursts: seq<Burst>)
    requires c.Valid() && bursts != []
    ensures ReadAll(c, bursts) == Readable(Faced(ReadAll(c, bursts[..|bursts| - 1]), bursts[|bursts| - 1]))
    ensures |bursts| == 1 ==> ReadAll(c, bursts) == Readable(Faced(c, bursts[0]))
  {
  }

  lemma ReadOnce(c: Conn, b: Burst)
    requires c.Valid() && Linked(c) && c.state != Dead && Quiet(b)
    ensures Linked(Readable(Faced(c, b))) && Readable(Faced(c, b)).link.receives == []
  {
    hide Parsed, Content, Drained, Quiet;
    QuietRead(c, b);
    ParseKeepsLink(Fed(Faced(c, []), Content(b)));
  }

  /** One more burst after a read agrees with one longer read. */
  lemma AnotherBurst(c: Conn, r: Conn, a: Burst, b: Burst)
    requires c.Valid() && Linked(c) && c.state != Dead && Quiet(a) && Quiet(b) && Quiet(a + b)
    requires r.Valid() && Linked(r)
    requires Remains(r) == Remains(Readable(Faced(c, a)))
    requires r.state != Dead ==> r == Readable(Faced(c, a))
    ensures var many, once := Readable(Faced(r, b)), Readable(Faced(c, a + b));
            && Linked(many)
            && Remains(many) == Remains(once)
            && (many.state != Dead ==> many == once)
  {
    hide Parsed, Content, Drained, Quiet;
    var c0 := Faced(c, []);
    var s := Readable(Faced(c, a));
    QuietRead(c, a);
    QuietRead(c, a + b);
    ContentJoins(a, b);
    ParseSplits(Fed(c0, Content(a)), Content(b));
    FeedTwice(c0, Content(a), Content(b));
    ReadOnce(c, a);
    if r.state != Dead {
      QuietRead(r, b);
      ReadOnce(r, b);
      assert Faced(r, []) == s;
    }
  }
}
