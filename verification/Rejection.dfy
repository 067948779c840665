/** A server that turns its client away: the reply goes out whole before the connection does. */
module Rejection {
  import opened Endian
  import opened Wire
  import opened Receiver
  import opened Socket
  import opened Connection
  import opened Lifecycle
  import opened Runs
  import opened Fragmentation
  import opened Handshakes

  /** Neither the socket nor the application ends the connection in this call. */
  predicate Undisturbed(call: Call, w: World) {
    !call.Close? && SendFails !in w.sends && ReceiveFails !in w.receives
  }

  // ------------------------------------------------------------------
  // The call that decides
  // ------------------------------------------------------------------

  /** A server has a whole handshake before it, of a known protocol but not of version 1. */
  predicate TurnsAway(c: Conn) {
    && c.state == AwaitingHandshake
    && |c.rx.inbound| >= 12
    && TransactionTag(c.rx.inbound)
    && c.rx.inbound[8..10] != [0x00, 0x01]
  }

  lemma TurnedAwayVerdict(c: Conn)
    requires c.state == AwaitingHandshake && |c.rx.inbound| >= CLIENT_HANDSHAKE_SIZE
    ensures TurnsAway(c) <==>
            JudgeClient(DecodedClientHandshake(c.rx.inbound[..CLIENT_HANDSHAKE_SIZE])) == IncompatibleVersion
  {
    var b := c.rx.inbound[..CLIENT_HANDSHAKE_SIZE];
    VerdictOfBytes(b);
    assert b[..4] == c.rx.inbound[..4] && b[8..10] == c.rx.inbound[8..10];
  }

  /** A server that owes some bytes is closing, or gone with all of them accepted. */
  ghost predicate Settling(c: Conn, owed: Bytes) {
    && owed <= c.queued
    && ((c.state == Closing && c.link.open) || (c.state == Dead && owed <= c.link.accepted))
  }

  /** The connection in the handshake step, with the refusal queued and not yet flushed. */
  function Refusing(c: Conn): Conn
    requires |c.rx.inbound| >= CLIENT_HANDSHAKE_SIZE
  {
    var h := DecodedClientHandshake(c.rx.inbound[..CLIENT_HANDSHAKE_SIZE]);
    var rx := c.rx.(inbound := c.rx.inbound[CLIENT_HANDSHAKE_SIZE..], stage := AwaitHeader);
    var c' := c.(rx := rx, handshakes := c.handshakes + 1, remote := (h.subProtocol, h.subVersion));
    Enqueued(c', REFUSAL).(state := Closing)
  }

  /** Parsing an incompatible handshake is queueing the refusal, closing, and one flush; nothing behind it is read. */
  lemma ParseRefuses(c: Conn)
    requires c.Valid() && c.role == Server && TurnsAway(c) && c.rx.stage == AwaitHandshake
    ensures Parsed(c) == Flushed(Refusing(c))
  {
    hide Flushed, DecodedClientHandshake, EncodedServerReply, JudgeClient;
    TurnedAwayVerdict(c);
    RefusalIs();
    assert Shook(c) == Flushed(Refusing(c));
    FlushEndsAs(Refusing(c));
  }

  /** A flush in Closing that the socket does not fail sends all there is or stays in Closing. */
  lemma FlushSettles(c: Conn)
    requires QueueSound(c) && c.state == Closing && c.link.open && SendFails !in c.link.sends
    ensures Flushed(c).queued == c.queued
    ensures || (Flushed(c).state == Closing && Flushed(c).link.open)
            || (Flushed(c).state == Dead && Flushed(c).link.accepted == c.queued)
  {
    hide Flushed, Unsent;
    FlushKeepsQueue(c);
    FlushEndsAs(c);
  }

  /** The read call that finds an incompatible handshake queues the refusal, and ends with it settled or settling. */
  lemma RefusalIsQueued(c: Conn, w: World)
    requires Sane(c) && c.role == Server && c.state == AwaitingHandshake && c.link.open
    requires Undisturbed(ServiceReadable, w) && TurnsAway(Drained(Armed(c, w)).0)
    ensures var r := Called(c, ServiceReadable, w);
            && r.queued == c.queued + REFUSAL
            && (|| (r.state == Closing && r.link.open)
                || (r.state == Dead && r.link.accepted == r.queued))
  {
    hide Flushed, Drained, Parsed, Unsent, Assembled, Refusing, DecodedClientHandshake, JudgeClient;
    var a := Armed(c, w);
    DrainSucceeds(a);
    DrainOnlyReads(a);
    var d := Drained(a).0;
    ParseRefuses(d);
    RefusingSound(d);
    FlushSettles(Refusing(d));
  }

  lemma RefusingSound(c: Conn)
    requires QueueSound(c) && |c.rx.inbound| >= CLIENT_HANDSHAKE_SIZE
    ensures QueueSound(Refusing(c)) && Refusing(c).queued == c.queued + REFUSAL
    ensures Refusing(c).state == Closing && Refusing(c).link == c.link
  {
    hide Unsent, EncodedServerReply, DecodedClientHandshake;
    var h := DecodedClientHandshake(c.rx.inbound[..CLIENT_HANDSHAKE_SIZE]);
    var rx := c.rx.(inbound := c.rx.inbound[CLIENT_HANDSHAKE_SIZE..], stage := AwaitHeader);
    EnqueueKeepsQueue(c.(rx := rx, handshakes := c.handshakes + 1, remote := (h.subProtocol, h.subVersion)), REFUSAL);
  }

  // ------------------------------------------------------------------
  // The calls after it
  // ------------------------------------------------------------------

  lemma CallKeepsQueued(c: Conn, call: Call, w: World)
    requires Sane(c) && Permitted(c, call)
    ensures c.queued <= Called(c, call, w).queued
  {
    hide Flushed, Drained, Parsed, Coded, Unsent, Assembled;
    var a := Armed(c, w);
    ArmedSane(c, w);
    match call {
      case ServiceReadable =>
        DrainOnlyReads(a);
        ParseKeepsQueue(Drained(a).0);
      case _ =>
    }
  }

  /** Whatever is called, a server that owes its refusal pays it before it is gone. */
  lemma SettlingStays(c: Conn, call: Call, w: World, owed: Bytes)
    requires Sane(c) && Permitted(c, call) && Undisturbed(call, w) && Settling(c, owed)
    ensures Settling(Called(c, call, w), owed)
  {
    hide Flushed, Drained, Coded, Unsent, Assembled;
    var a := Armed(c, w);
    ArmedSane(c, w);
    CallKeepsQueued(c, call, w);
    if c.state == Dead {
      CallKeepsSane(c, call, w);
    } else {
      match call {
        case ServiceReadable =>
          DrainSucceeds(a);
          DrainOnlyReads(a);
        case ServiceWritable =>
          FlushSettles(a);
        case QueueTransaction(q) =>
          var (encoder, bytes) := Coded(a.encoder, q);
          EnqueueKeepsQueue(a.(encoder := encoder), bytes);
          FlushSettles(Enqueued(a.(encoder := encoder), bytes));
      }
    }
  }

  lemma {:induction false} RunSettles(c: Conn, moments: seq<Moment>, owed: Bytes)
    requires Sane(c) && Orderly(c, moments) && Settling(c, owed)
    requires forall m :: m in moments ==> Undisturbed(m.call, m.world)
    ensures Settling(Run(c, moments), owed)
  {
    hide Called, Sane, Permitted, Settling, Undisturbed;
    SaneIsValid(c);
    if moments == [] {
    } else {
      var front, last := moments[..|moments| - 1], moments[|moments| - 1];
      assert last in moments;
      RunSettles(c, front, owed);
      RunStaysSane(c, front);
      SettlingStays(Run(c, front), last.call, last.world, owed);
    }
  }

  // ------------------------------------------------------------------
  // Whole runs
  // ------------------------------------------------------------------

  /** Until it is closed or dead, a started connection has an open socket. */
  ghost predicate OpenWhileLive(c: Conn) {
    c.state == Idle || c.state == Dead || c.link.open
  }

  lemma CallKeepsOpen(c: Conn, call: Call, w: World)
    requires Sane(c) && Permitted(c, call) && !call.Close? && OpenWhileLive(c)
    ensures OpenWhileLive(Called(c, call, w))
  {
    hide Flushed, Drained, Parsed, Coded, EncodedClientHandshake, Unsent, Assembled;
    var a := Armed(c, w);
    ArmedSane(c, w);
    CallKeepsSane(c, call, w);
    match call {
      case Start(subProtocol, subVersion) =>
        var h := ClientHandshake(PROTOCOL_TRTP, subProtocol, PROTOCOL_VERSION, subVersion);
        FlushEndsAs(Enqueued(c.(link := Link(true, w.sends, w.receives, [], []), state := AwaitingReply),
                             EncodedClientHandshake(h)));
      case ServiceReadable =>
        DrainOnlyReads(a);
        if c.state != Idle && c.state != Dead && Drained(a).1 {
          ParseKeepsLink(Drained(a).0);
        }
      case ServiceWritable =>
        FlushEndsAs(a);
      case QueueTransaction(q) =>
        var (encoder, bytes) := Coded(a.encoder, q);
        FlushEndsAs(Enqueued(a.(encoder := encoder), bytes));
    }
  }

  lemma {:induction false} RunStaysOpen(c: Conn, moments: seq<Moment>)
    requires Sane(c) && Orderly(c, moments) && OpenWhileLive(c)
    requires forall m :: m in moments ==> !m.call.Close?
    ensures OpenWhileLive(Run(c, moments))
  {
    hide Called, Sane, Permitted, OpenWhileLive;
    SaneIsValid(c);
    if moments == [] {
    } else {
      var front, last := moments[..|moments| - 1], moments[|moments| - 1];
      assert last in moments;
      RunStaysOpen(c, front);
      RunStaysSane(c, front);
      CallKeepsOpen(Run(c, front), last.call, last.world);
    }
  }

  lemma {:induction false} OrderlyRest(c: Conn, moments: seq<Moment>, n: nat)
    requires Sane(c) && Orderly(c, moments) && n <= |moments|
    ensures Orderly(c, moments[..n])
    ensures Sane(Run(c, moments[..n])) && Orderly(Run(c, moments[..n]), moments[n..])
  {
    hide Called, Sane, Permitted;
    SaneIsValid(c);
    RunFront(c, moments, n);
    RunStaysSane(c, moments[..n]);
    SaneIsValid(Run(c, moments[..n]));
    if n == |moments| {
      assert moments[n..] == [];
    } else {
      var front := moments[..|moments| - 1];
      OrderlyRest(c, front, n);
      assert front[..n] == moments[..n];
      assert moments[n..][..|moments| - n - 1] == front[n..];
      RunResumes(c, front, n);
    }
  }

  /** The call after the first `n` finds an incompatible handshake in what it reads. */
  ghost predicate Judged(start: Conn, moments: seq<Moment>, n: nat)
    requires start.Valid() && n < |moments|
  {
    && moments[n].call == ServiceReadable
    && TurnsAway(Drained(Armed(Run(start, moments[..n]), moments[n].world)).0)
  }

  /**
   * In every run in which a server judges its client incompatible, at its n-th call, and its socket
   * neither fails nor is closed from then on: the refusal stands in the queued bytes right behind
   * what was queued before, and the server is closing still, or gone with the whole refusal
   * accepted, be it in the same call or in any later one.
   */
  lemma RejectionIsSent(start: Conn, moments: seq<Moment>, n: nat)
    requires Sane(start) && OpenWhileLive(start) && Orderly(start, moments)
    requires n < |moments| && Judged(start, moments, n)
    requires forall m :: m in moments[..n] ==> !m.call.Close?
    requires forall m :: m in moments[n..] ==> Undisturbed(m.call, m.world)
    ensures var before, now := Run(start, moments[..n]).queued, Run(start, moments);
            && before + REFUSAL <= now.queued
            && (now.state == Closing || now.state == Dead)
            && (now.state == Dead ==> before + REFUSAL <= now.link.accepted)
  {
    hide Run, Orderly, Called, Drained, Sane, Undisturbed, OpenWhileLive, TurnsAway;
    SaneIsValid(start);
    var rest := moments[n + 1..];
    OrderlyRest(start, moments, n);
    OrderlyRest(start, moments, n + 1);
    RunStaysOpen(start, moments[..n]);
    RunStep(start, moments, n);
    assert moments[n..][0] == moments[n] && rest == moments[n..][1..];
    RefusalStarts(Run(start, moments[..n]), moments[n].world);
    RunSettles(Run(start, moments[..n + 1]), rest, Run(start, moments[..n]).queued + REFUSAL);
    SaneIsValid(Run(start, moments[..n + 1]));
    RunResumes(start, moments, n + 1);
  }

  lemma RunStep(c: Conn, moments: seq<Moment>, n: nat)
    requires c.Valid() && n < |moments|
    ensures Run(c, moments[..n + 1]) == Called(Run(c, moments[..n]), moments[n].call, moments[n].world)
  {
    hide Called;
    assert moments[..n + 1][..n] == moments[..n];
  }

  lemma RefusalStarts(c: Conn, w: World)
    requires Sane(c) && OpenWhileLive(c)
    requires Undisturbed(ServiceReadable, w) && TurnsAway(Drained(Armed(c, w)).0)
    ensures Settling(Called(c, ServiceReadable, w), c.queued + REFUSAL)
  {
    hide Drained, Called, Unsent, Assembled, JudgeClient, DecodedClientHandshake;
    DrainOnlyReads(Armed(c, w));
    RefusalIsQueued(c, w);
  }

  // ------------------------------------------------------------------
  // Every closing connection
  // ------------------------------------------------------------------

  /** A closing connection has its refusal among the bytes queued. */
  ghost predicate Refused(c: Conn) {
    c.state == Closing ==> exists before: Bytes :: before + REFUSAL <= c.queued
  }

  /** Only an incompatible handshake leads a server into Closing. */
  lemma ParseClosesOnlyToRefuse(c: Conn)
    requires c.Valid() && Ordered(c) && c.state == AwaitingHandshake && Parsed(c).state == Closing
    ensures TurnsAway(c)
  {
    hide Flushed, DecodedClientHandshake, EncodedServerReply, Announced, Step;
    if |c.rx.inbound| >= CLIENT_HANDSHAKE_SIZE {
      ShakeKeepsOrder(c);
      ShookShrinks(c);
      ParseKeepsOrder(Shook(c));
      TurnedAwayVerdict(c);
      var h := DecodedClientHandshake(c.rx.inbound[..CLIENT_HANDSHAKE_SIZE]);
      if JudgeClient(h) == Accepted {
        AcceptedDoesNotClose(c);
      }
    }
  }

  lemma AcceptedDoesNotClose(c: Conn)
    requires |c.rx.inbound| >= CLIENT_HANDSHAKE_SIZE && c.role == Server
    requires JudgeClient(DecodedClientHandshake(c.rx.inbound[..CLIENT_HANDSHAKE_SIZE])) == Accepted
    ensures Shook(c).state != Closing
  {
    hide Flushed, DecodedClientHandshake, EncodedServerReply, JudgeClient;
    var n := CLIENT_HANDSHAKE_SIZE;
    var h := DecodedClientHandshake(c.rx.inbound[..n]);
    var c' := c.(rx := c.rx.(inbound := c.rx.inbound[n..], stage := AwaitHeader), handshakes := c.handshakes + 1);
    FlushEndsAs(MarkedEstablished(Replying(c'.(remote := (h.subProtocol, h.subVersion)),
                                           ServerReply(PROTOCOL_TRTP, 0))));
  }

  lemma CallKeepsRefused(c: Conn, call: Call, w: World)
    requires Sane(c) && Permitted(c, call) && Refused(c)
    ensures Refused(Called(c, call, w))
  {
    hide Flushed, Drained, Parsed, Coded, Unsent, Assembled, TurnsAway, Refusing;
    var a, r := Armed(c, w), Called(c, call, w);
    ArmedSane(c, w);
    CallKeepsQueued(c, call, w);
    CallKeepsSane(c, call, w);
    if c.state == Closing {
      if r.state == Closing {
        var before :| before + REFUSAL <= c.queued;
        assert before + REFUSAL <= r.queued;
      }
    } else if r.state == Closing {
      assert c.state == AwaitingHandshake;
      if call.ServiceReadable? {
        DrainOnlyReads(a);
        var d := Drained(a).0;
        ParseClosesOnlyToRefuse(d);
        RefusalFollows(d);
        assert c.queued + REFUSAL <= r.queued;
      } else {
        OnlyReadingCloses(c, call, w);
      }
    }
  }

  lemma OnlyReadingCloses(c: Conn, call: Call, w: World)
    requires Sane(c) && c.state == AwaitingHandshake && Permitted(c, call) && !call.ServiceReadable?
    ensures Called(c, call, w).state != Closing
  {
    hide Flushed, Coded, Unsent, Assembled;
    var a := Armed(c, w);
    FlushEndsAs(a);
    if call.QueueTransaction? {
      var (encoder, bytes) := Coded(a.encoder, call.q);
      FlushEndsAs(Enqueued(a.(encoder := encoder), bytes));
    }
  }

  lemma RefusalFollows(c: Conn)
    requires c.Valid() && QueueSound(c) && c.role == Server && TurnsAway(c) && c.rx.stage == AwaitHandshake
    ensures Parsed(c).queued == c.queued + REFUSAL
  {
    hide Flushed, Parsed, Unsent, Refusing, JudgeClient, DecodedClientHandshake;
    ParseRefuses(c);
    RefusingSound(c);
  }

  /** In every run, failures and closing included: a connection in Closing has queued the whole refusal. */
  lemma {:induction false} ClosingMeansRefused(c: Conn, moments: seq<Moment>)
    requires Sane(c) && Orderly(c, moments) && Refused(c)
    ensures Refused(Run(c, moments))
  {
    hide Called, Sane, Permitted, Refused;
    SaneIsValid(c);
    if moments == [] {
    } else {
      var front, last := moments[..|moments| - 1], moments[|moments| - 1];
      ClosingMeansRefused(c, front);
      RunStaysSane(c, front);
      CallKeepsRefused(Run(c, front), last.call, last.world);
    }
  }
}
