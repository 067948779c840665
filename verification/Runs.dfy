/** Safety over whole runs of calls on one connection. */
module Runs {
  import opened Endian
  import opened Wire
  import opened Reassembly
  import opened Receiver
  import opened Socket
  import opened Connection
  import opened Lifecycle

  // ------------------------------------------------------------------
  // The receive side
  // ------------------------------------------------------------------

  /** The assembly is what the completed parts led to, and every part passed the policy. */
  ghost predicate Assembled(rx: Rx, max: u32) {
    && rx.asm == TakenAll(NOTHING, rx.parts)
    && (forall m :: m in rx.parts ==> Allowed(m, max))
    && (rx.stage == AwaitData ==> !Refusable(rx.header, max))
  }

  lemma StepKeepsAssembled(max: u32, rx: Rx)
    requires rx.Valid() && rx.stage != AwaitHandshake && Assembled(rx, max)
    ensures var r := Step(max, rx);
            && (r.Next? ==> Assembled(r.rx, max))
            && (r.Refused? ==> Assembled(r.rx, max))
  {
    hide HeaderIn, DecodedHeader, Taken, TakenAll, DataIn;
    if rx.stage == AwaitData && |rx.inbound| >= rx.header.dataSize {
      var plain := DataIn(rx.hooks, rx.inbound[..rx.header.dataSize], rx.flag).1;
      TakenAllStep(NOTHING, rx.parts, Message(rx.header, plain));
    }
  }

  lemma {:induction false} ParseKeepsAssembled(c: Conn)
    requires c.Valid() && Assembled(c.rx, c.max)
    ensures Assembled(Parsed(c).rx, c.max)
    decreases |c.rx.inbound|
  {
    hide Step, Shook, HandshakeSize, Announced, TakenAll, Allowed, Refusable;
    if c.state == Dead || c.state == Closing {
    } else if c.rx.stage == AwaitHandshake {
      if |c.rx.inbound| >= HandshakeSize(c.role) {
        ShookShrinks(c);
        ParseKeepsAssembled(Shook(c));
      }
    } else {
      StepKeepsAssembled(c.max, c.rx);
      match Step(c.max, c.rx) {
        case Wait =>
        case Refused(rx) =>
        case Next(rx) => ParseKeepsAssembled(Moved(c, rx));
      }
    }
  }

  // ------------------------------------------------------------------
  // One call
  // ------------------------------------------------------------------

  ghost predicate Sane(c: Conn) {
    c.Valid() && QueueSound(c) && Ordered(c) && Assembled(c.rx, c.max)
  }

  /** `start` is for idle connections. */
  predicate Permitted(c: Conn, call: Call) {
    call.Start? ==> c.state == Idle
  }

  /** A call's effect on an already dead connection: nothing fired, nothing sent. */
  ghost predicate Unmoved(c: Conn, r: Conn) {
    r.state == Dead && r.log == c.log && r.link.accepted == c.link.accepted && r.rx == c.rx
        && r.handshakes == c.handshakes
  }

  lemma CreatedSane(role: Role, max: u32, encoder: Hooks, decoder: Hooks)
    requires encoder.Valid() && decoder.Valid()
    ensures Sane(Created(role, max, encoder, decoder))
  {
  }

  lemma ArmedSane(c: Conn, w: World)
    requires Sane(c)
    ensures Sane(Armed(c, w))
  {
    hide Unsent, TakenAll, Allowed, Refusable;
  }

  lemma FlushSane(c: Conn)
    requires Sane(c) && c.state != Idle
    ensures Sane(Flushed(c)) && Flushed(c).state in {c.state, Dead}
    ensures c.state == Dead ==> Unmoved(c, Flushed(c))
  {
    hide Flushed, Unsent, TakenAll, Allowed, Refusable, Ordered, Announced;
    FlushKeepsQueue(c);
    FlushKeepsOrder(c);
  }

  /** An idle connection has no open socket: sending or reading only ends it. */
  lemma IdleFlush(c: Conn, bytes: Bytes)
    requires Sane(c) && c.state == Idle && bytes != []
    ensures Sane(Flushed(Enqueued(c, bytes))) && Flushed(Enqueued(c, bytes)).state == Dead
  {
    hide Unsent, TakenAll, Allowed, Refusable;
    EnqueueKeepsQueue(c, bytes);
    FlushKeepsQueue(Enqueued(c, bytes));
  }

  lemma EnqueueSane(c: Conn, bytes: Bytes)
    requires Sane(c) && c.state != Idle
    ensures Sane(Enqueued(c, bytes))
  {
    hide Unsent, TakenAll, Allowed, Refusable;
    EnqueueKeepsQueue(c, bytes);
  }

  lemma ReadableSane(c: Conn)
    requires Sane(c)
    ensures Sane(Readable(c)) && Onward(c.state, Readable(c).state)
    ensures c.state == Dead ==> Readable(c) == c
  {
    hide Drained, Parsed, Unsent, TakenAll, Allowed, Refusable, Announced;
    if c.state != Dead {
      DrainOnlyReads(c);
      var (r, ok) := Drained(c);
      assert Assembled(r.rx, r.max);
      if ok {
        assert c.state != Idle;
        assert Ordered(r);
        ParseKeepsQueue(r);
        ParseKeepsOrder(r);
        ParseKeepsAssembled(r);
      }
    }
  }

  lemma QueuedSane(c: Conn, q: Request)
    requires Sane(c)
    ensures Sane(Queued(c, q)) && Queued(c, q).state in {c.state, Dead}
    ensures c.state == Dead ==> Unmoved(c, Queued(c, q))
  {
    hide Flushed, Coded, Unsent, TakenAll, Allowed, Refusable, Announced;
    var (encoder, bytes) := Coded(c.encoder, q);
    var c' := c.(encoder := encoder);
    assert Sane(c');
    if c.state == Idle {
      IdleFlush(c', bytes);
    } else {
      EnqueueSane(c', bytes);
      FlushSane(Enqueued(c', bytes));
    }
  }

  lemma StartedSane(c: Conn, link: Link, subProtocol: u32, subVersion: u16)
    requires Sane(c) && c.state == Idle && link.accepted == []
    ensures var r := Started(c, link, subProtocol, subVersion);
            Sane(r) && (r.state == Dead || r.state == if c.role == Server then AwaitingHandshake else AwaitingReply)
  {
    hide Flushed, EncodedClientHandshake, TakenAll, Allowed, Refusable;
    NothingQueued(c);
    if c.role == Client {
      var c' := c.(link := link, state := AwaitingReply);
      var h := ClientHandshake(PROTOCOL_TRTP, subProtocol, PROTOCOL_VERSION, subVersion);
      assert Sane(c');
      EnqueueSane(c', EncodedClientHandshake(h));
      FlushSane(Enqueued(c', EncodedClientHandshake(h)));
    }
  }

  lemma NothingQueued(c: Conn)
    requires QueueSound(c) && c.queued == []
    ensures c.queue == []
  {
  }

  /** Every permitted call keeps a connection sane, moves its state onward, and leaves the dead alone. */
  lemma CallKeepsSane(c: Conn, call: Call, w: World)
    requires Sane(c) && Permitted(c, call)
    ensures var r := Called(c, call, w);
            && Sane(r)
            && Onward(c.state, r.state)
            && (c.state == Dead ==> Unmoved(c, r))
  {
    hide Flushed, Readable, Queued, Started, Unsent, TakenAll, Allowed, Refusable, Announced;
    ArmedSane(c, w);
    match call {
      case Start(subProtocol, subVersion) =>
        StartedSane(c, Link(true, w.sends, w.receives, [], []), subProtocol, subVersion);
      case ServiceReadable =>
        ReadableSane(Armed(c, w));
      case ServiceWritable =>
        if c.state == Idle {
          NothingQueued(Armed(c, w));
          FlushEmpty(Armed(c, w));
        } else if c.state != Dead {
          FlushSane(Armed(c, w));
        }
      case QueueTransaction(q) =>
        QueuedSane(Armed(c, w), q);
      case Close =>
    }
  }

  lemma FlushEmpty(c: Conn)
    requires c.queue == [] && c.state != Closing
    ensures Flushed(c) == c
  {
  }

  /** Every call that has something to send goes on sending until the socket blocks or nothing is left. */
  lemma CallGoesOn(c: Conn, call: Call, w: World)
    requires c.Valid() && (call.ServiceWritable? || call.QueueTransaction? || (call.Start? && c.role == Client))
    ensures var r := Called(c, call, w);
            r.state == Dead || (r.queue == [] && r.state != Closing) || Blocked(w.sends, r.link.sends)
  {
    hide Flushed, Coded, EncodedClientHandshake;
    match call {
      case ServiceWritable =>
        FlushGoesOn(Armed(c, w));
      case QueueTransaction(q) =>
        var (encoder, bytes) := Coded(c.encoder, q);
        FlushGoesOn(Enqueued(Armed(c, w).(encoder := encoder), bytes));
      case Start(subProtocol, subVersion) =>
        var h := ClientHandshake(PROTOCOL_TRTP, subProtocol, PROTOCOL_VERSION, subVersion);
        var link := Link(true, w.sends, w.receives, [], []);
        FlushGoesOn(Enqueued(c.(link := link, state := AwaitingReply), EncodedClientHandshake(h)));
    }
  }

  lemma CallCloses(c: Conn, call: Call, w: World)
    requires c.Valid() && ClosedIfDead(c)
    ensures ClosedIfDead(Called(c, call, w))
  {
    hide Flushed, Drained, Parsed, Coded, EncodedClientHandshake;
    var a := Armed(c, w);
    match call {
      case Start(subProtocol, subVersion) =>
        var h := ClientHandshake(PROTOCOL_TRTP, subProtocol, PROTOCOL_VERSION, subVersion);
        var link := Link(true, w.sends, w.receives, [], []);
        FlushCloses(Enqueued(c.(link := link, state := AwaitingReply), EncodedClientHandshake(h)));
      case ServiceReadable =>
        DrainOnlyReads(a);
        if c.state != Dead && Drained(a).1 {
          ParseCloses(Drained(a).0);
        }
      case ServiceWritable =>
        FlushCloses(a);
      case QueueTransaction(q) =>
        var (encoder, bytes) := Coded(c.encoder, q);
        FlushCloses(Enqueued(a.(encoder := encoder), bytes));
      case Close =>
    }
  }

  // ------------------------------------------------------------------
  // Whole runs
  // ------------------------------------------------------------------

  datatype Moment = Moment(call: Call, world: World)

  function Run(c: Conn, moments: seq<Moment>): (r: Conn)
    requires c.Valid()
    ensures r.Valid()
  {
    if moments == [] then c
    else
      var m := moments[|moments| - 1];
      Called(Run(c, moments[..|moments| - 1]), m.call, m.world)
  }

  ghost predicate Orderly(c: Conn, moments: seq<Moment>)
    requires c.Valid()
  {
    moments == [] ||
    (&& Orderly(c, moments[..|moments| - 1])
     && Permitted(Run(c, moments[..|moments| - 1]), moments[|moments| - 1].call))
  }

  lemma {:induction false} RunStaysSane(c: Conn, moments: seq<Moment>)
    requires Sane(c) && Orderly(c, moments)
    ensures Sane(Run(c, moments))
  {
    hide Called, Sane, Permitted;
    SaneIsValid(c);
    if moments == [] {
    } else {
      RunStaysSane(c, moments[..|moments| - 1]);
      CallKeepsSane(Run(c, moments[..|moments| - 1]), moments[|moments| - 1].call, moments[|moments| - 1].world);
    }
  }

  lemma SaneIsValid(c: Conn)
    requires Sane(c)
    ensures c.Valid()
  {
  }

  /** The front of an orderly run is orderly, and the run continues from it. */
  lemma {:induction false} RunFront(c: Conn, moments: seq<Moment>, n: nat)
    requires Sane(c) && Orderly(c, moments) && n <= |moments|
    ensures Orderly(c, moments[..n])
  {
    hide Called, Sane, Permitted;
    SaneIsValid(c);
    if n == |moments| {
      assert moments[..n] == moments;
    } else {
      RunFront(c, moments[..|moments| - 1], n);
      assert moments[..|moments| - 1][..n] == moments[..n];
    }
  }

  function Rank(s: State): nat {
    match s
    case Idle => 0
    case AwaitingReply => 1
    case AwaitingHandshake => 1
    case Established => 2
    case Closing => 2
    case Dead => 3
  }

  /** States only move forward; once dead, always dead, with no further event and no further byte sent. */
  lemma {:induction false} StatesMoveForward(c: Conn, moments: seq<Moment>, n: nat)
    requires Sane(c) && Orderly(c, moments) && n <= |moments|
    ensures Rank(Run(c, moments[..n]).state) <= Rank(Run(c, moments).state)
    ensures Rank(Run(c, moments[..n]).state) == Rank(Run(c, moments).state) ==>
              Run(c, moments[..n]).state == Run(c, moments).state
    ensures Run(c, moments[..n]).state == Dead ==> Unmoved(Run(c, moments[..n]), Run(c, moments))
  {
    hide Called, Sane, Permitted;
    SaneIsValid(c);
    if n == |moments| {
      assert moments[..n] == moments;
    } else {
      var front := moments[..|moments| - 1];
      StatesMoveForward(c, front, n);
      assert front[..n] == moments[..n];
      RunStaysSane(c, front);
      CallKeepsSane(Run(c, front), moments[|moments| - 1].call, moments[|moments| - 1].world);
    }
  }

  /** In every run, `start` out of turn included: a dead connection has closed its socket. */
  lemma {:induction false} DeathClosesSocket(role: Role, max: u32, encoder: Hooks, decoder: Hooks,
                                             moments: seq<Moment>)
    requires encoder.Valid() && decoder.Valid()
    ensures var c := Run(Created(role, max, encoder, decoder), moments);
            c.state == Dead ==> !c.link.open
  {
    hide Called;
    if moments == [] {
    } else {
      var last := moments[|moments| - 1];
      DeathClosesSocket(role, max, encoder, decoder, moments[..|moments| - 1]);
      CallCloses(Run(Created(role, max, encoder, decoder), moments[..|moments| - 1]), last.call, last.world);
    }
  }

  ghost predicate FiredInOrder(log: seq<Event>, ms: seq<Message>) {
    || (log == [] && ms == [])
    || (log == [OnClosed] && ms == [])
    || log == [OnEstablished] + Announced(ms)
    || log == [OnEstablished] + Announced(ms) + [OnClosed]
  }

  /**
   * In every run: on_established fires at most once and first, transactions only after it,
   * on_closed at most once and last and exactly on death, and the handshake step runs at most once.
   */
  lemma EventsInOrder(role: Role, max: u32, encoder: Hooks, decoder: Hooks, moments: seq<Moment>)
    requires encoder.Valid() && decoder.Valid() && Orderly(Created(role, max, encoder, decoder), moments)
    ensures var c := Run(Created(role, max, encoder, decoder), moments);
            && FiredInOrder(c.log, c.rx.asm.dispatched)
            && (c.log != [] && c.log[|c.log| - 1] == OnClosed <==> c.state == Dead)
            && (c.state == Established ==> c.log == [OnEstablished] + Announced(c.rx.asm.dispatched))
            && c.handshakes <= 1
  {
    hide Run, Orderly;
    CreatedSane(role, max, encoder, decoder);
    RunStaysSane(Created(role, max, encoder, decoder), moments);
  }

  /**
   * In every run: each partial entry holds less than its declared total, which is within the limit;
   * each dispatched payload is below twice the limit; and no payload byte is lost or made up.
   */
  lemma SizesBoundedAndConserved(role: Role, max: u32, encoder: Hooks, decoder: Hooks, moments: seq<Moment>)
    requires encoder.Valid() && decoder.Valid() && Orderly(Created(role, max, encoder, decoder), moments)
    ensures var rx := Run(Created(role, max, encoder, decoder), moments).rx;
            && Bounded(rx.asm, max)
            && Payloads(rx.asm.dispatched) + Held(rx.asm.partial) == Payloads(rx.parts)
  {
    hide Run, Orderly, Bounded, Payloads, Held, TakenAll, Allowed;
    CreatedSane(role, max, encoder, decoder);
    var c := Created(role, max, encoder, decoder);
    RunStaysSane(c, moments);
    RunKeepsPast(c, moments);
    PartsStayBounded(max, Run(c, moments).rx.parts);
    BytesConserved(Run(c, moments).rx.parts);
  }

  /** In every run: all payloads dispatched are within the receive limit if and only if no completed part overran. */
  lemma PayloadsWithinLimitIff(role: Role, max: u32, encoder: Hooks, decoder: Hooks, moments: seq<Moment>)
    requires encoder.Valid() && decoder.Valid() && Orderly(Created(role, max, encoder, decoder), moments)
    ensures var rx := Run(Created(role, max, encoder, decoder), moments).rx;
            WithinLimit(rx.asm.dispatched, max) <==> NoneOverruns(rx.parts, max)
  {
    hide Run, Orderly, TakenAll, Allowed, WithinLimit, NoneOverruns;
    var c := Created(role, max, encoder, decoder);
    CreatedSane(role, max, encoder, decoder);
    RunStaysSane(c, moments);
    RunKeepsPast(c, moments);
    AllWithinLimitIff(max, Run(c, moments).rx.parts);
  }

  lemma {:induction false} RunKeepsPast(c: Conn, moments: seq<Moment>)
    requires c.Valid()
    ensures Run(c, moments).max == c.max && c.rx.parts <= Run(c, moments).rx.parts
  {
    hide Called;
    if moments == [] {
    } else {
      RunKeepsPast(c, moments[..|moments| - 1]);
      CallKeepsPast(Run(c, moments[..|moments| - 1]), moments[|moments| - 1].call, moments[|moments| - 1].world);
    }
  }

  lemma CallKeepsPast(c: Conn, call: Call, w: World)
    requires c.Valid()
    ensures Called(c, call, w).max == c.max && c.rx.parts <= Called(c, call, w).rx.parts
  {
    hide Flushed, Drained, Parsed, Coded, EncodedClientHandshake;
    if call.ServiceReadable? {
      DrainOnlyReads(Armed(c, w));
      ParseKeepsPast(Drained(Armed(c, w)).0);
    }
  }

  lemma StepKeepsParts(max: u32, rx: Rx)
    requires rx.Valid() && rx.stage != AwaitHandshake
    ensures !Step(max, rx).Wait? ==> rx.parts <= Step(max, rx).rx.parts
  {
    hide HeaderIn, DecodedHeader, Taken, DataIn, Refusable;
  }

  lemma {:induction false} ParseKeepsPast(c: Conn)
    requires c.Valid()
    ensures c.rx.parts <= Parsed(c).rx.parts
    decreases |c.rx.inbound|
  {
    hide Step, Shook, HandshakeSize, Announced;
    if c.state == Dead || c.state == Closing {
    } else if c.rx.stage == AwaitHandshake {
      if |c.rx.inbound| >= HandshakeSize(c.role) {
        ShookShrinks(c);
        ParseKeepsPast(Shook(c));
      }
    } else {
      match Step(c.max, c.rx) {
        case Wait =>
        case Refused(rx) =>
          StepKeepsParts(c.max, c.rx);
        case Next(rx) =>
          StepKeepsParts(c.max, c.rx);
          ParseKeepsPast(Moved(c, rx));
      }
    }
  }

  /**
   * In every run and from any moment of it: when nothing is pending for an is-reply byte and an
   * id and the parts with both received since then make up a payload, that payload is dispatched
   * for the two once, whole, under the last part's header, and nothing else is, whatever was
   * received in between and whatever kinds and errors the parts carry.
   */
  lemma SplitPayloadArrives(start: Conn, moments: seq<Moment>, n: nat, r: byte, id: u32, whole: Bytes)
    requires Sane(start) && Orderly(start, moments) && n <= |moments|
    requires var past, now := Run(start, moments[..n]).rx, Run(start, moments).rx;
             && (r, id) !in past.asm.partial
             && |past.parts| <= |now.parts|
             && SplitInto(r, id, whole, OfKey(now.parts[|past.parts|..], r, id))
    ensures var past, now := Run(start, moments[..n]).rx, Run(start, moments).rx;
            var parts := OfKey(now.parts[|past.parts|..], r, id);
            OfKey(now.asm.dispatched, r, id) ==
              OfKey(past.asm.dispatched, r, id) + [Message(parts[|parts| - 1].header, whole)]
  {
    hide Run, Orderly, SplitInto, OfKey, TakenAll, Allowed, QueueSound, Ordered;
    RunFront(start, moments, n);
    RunStaysSane(start, moments[..n]);
    RunStaysSane(start, moments);
    RunResumes(start, moments, n);
    RunKeepsPast(Run(start, moments[..n]), moments[n..]);
    var past, now := Run(start, moments[..n]).rx, Run(start, moments).rx;
    var since := now.parts[|past.parts|..];
    assert now.parts == past.parts + since;
    TakenAllSplits(NOTHING, past.parts, since);
    SplitPayloadDispatchedOnce(r, id, whole, past.asm, since, |since|);
    assert since[..|since|] == since;
  }

  lemma {:induction false} RunResumes(c: Conn, moments: seq<Moment>, n: nat)
    requires c.Valid() && n <= |moments|
    ensures Run(Run(c, moments[..n]), moments[n..]) == Run(c, moments)
  {
    hide Called;
    if n == |moments| {
      assert moments[..n] == moments;
    } else {
      var front := moments[..|moments| - 1];
      RunResumes(c, front, n);
      assert front[..n] == moments[..n];
      assert moments[n..][..|moments[n..]| - 1] == front[n..];
    }
  }

  /** In every run: accepted bytes, then the unsent ones, are all bytes queued; no empty send is issued. */
  lemma SendsAreFifo(role: Role, max: u32, encoder: Hooks, decoder: Hooks, moments: seq<Moment>)
    requires encoder.Valid() && decoder.Valid() && Orderly(Created(role, max, encoder, decoder), moments)
    ensures var c := Run(Created(role, max, encoder, decoder), moments);
            && c.link.accepted + Unsent(c.queue) == c.queued
            && (forall p :: p in c.queue ==> p.offset < |p.bytes|)
            && (forall w: World, span :: span in SpansSent(Armed(c, w)) ==> span != [])
  {
    hide Run, Orderly, Unsent;
    CreatedSane(role, max, encoder, decoder);
    RunStaysSane(Created(role, max, encoder, decoder), moments);
    var c := Run(Created(role, max, encoder, decoder), moments);
    forall w: World ensures forall span :: span in SpansSent(Armed(c, w)) ==> span != [] {
      ArmedSane(c, w);
      NoSpanIsEmpty(Armed(c, w));
    }
  }

  // ------------------------------------------------------------------
  // Starting out of turn
  // ------------------------------------------------------------------

  /** A flush that the socket does not fail leaves any connection alive that was not closing. */
  lemma {:induction false} FlushLives(c: Conn)
    requires c.link.open && SendFails !in c.link.sends && c.state != Closing
    requires forall p :: p in c.queue ==> p.offset < |p.bytes|
    ensures Flushed(c).state == c.state
    decreases |c.link.sends|
  {
    if c.queue == [] {
    } else {
      var span := Remainder(c.queue[0]);
      assert c.queue[0] in c.queue && span != [];
      var (link, result) := Sending(c.link, span);
      var c' := c.(link := link);
      if c.link.sends != [] {
        assert forall o :: o in link.sends ==> o in c.link.sends;
        assert c.link.sends[0] in c.link.sends;
      }
      match result {
        case SendRetry => FlushLives(c');
        case Sent(n) => FlushLives(c'.(queue := Shifted(c.queue, n)));
        case SendWouldBlock =>
        case SendError =>
      }
    }
  }

  /**
   * Death is final exactly as long as `start` is not called: a dead connection of either role stays
   * dead under a call if and only if the call is not `start`, which does not look at the state. (A
   * client sends at once, so the new socket must not fail that.)
   */
  lemma OnlyStartRevives(c: Conn, call: Call, w: World)
    requires Sane(c) && c.state == Dead
    requires c.role == Client ==> SendFails !in w.sends
    ensures Called(c, call, w).state == Dead <==> !call.Start?
  {
    hide Flushed, Unsent, EncodedClientHandshake;
    if !call.Start? {
      CallKeepsSane(c, call, w);
    } else if c.role == Client {
      var h := ClientHandshake(PROTOCOL_TRTP, call.subProtocol, PROTOCOL_VERSION, call.subVersion);
      var link := Link(true, w.sends, w.receives, [], []);
      FlushLives(Enqueued(c.(link := link, state := AwaitingReply), EncodedClientHandshake(h)));
    }
  }
}
