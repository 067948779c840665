/** End-to-end delivery: a client and a server, their sockets, and everything both may do. */
module Network {
  import opened Endian
  import opened Wire
  import opened Receiver
  import opened Socket
  import opened Connection
  import opened Lifecycle
  import opened Runs
  import opened Streams
  import opened Handshakes
  import opened Delivery
  import opened Hmac
  import Cipher = TransactionCipher
  import KeyExpansion
  import Ofb

  // ------------------------------------------------------------------
  // One end moves
  // ------------------------------------------------------------------

  /** A moving end and the other one, with what each has been asked to send so far. */
  datatype Ends = Ends(x: Conn, y: Conn, sentX: seq<Request>, sentY: seq<Request>)

  /** What is fixed for an end: its first encode side, its handshake bytes. */
  datatype Voice = Voice(hooks: Hooks, prologue: Bytes)

  /** The client speaks from the start; the server once its handshake step ran. */
  predicate Began(c: Conn) {
    c.role == Client || c.handshakes == 1
  }

  ghost predicate OneEnd(x: Conn, y: Conn, vx: Voice, vy: Voice, sentX: seq<Request>, sentY: seq<Request>)
    requires vx.hooks.Valid() && vy.hooks.Valid()
  {
    && Sane(x)
    && Speaks(x, vx.hooks, vx.prologue, Began(x), sentX)
    && Hears(x, vy.hooks, Said(y, Began(y)), sentY)
    && Welcome(y.role, vx.prologue)
    && (x.role == Server ==> vx.prologue == EncodedServerReply(ServerReply(PROTOCOL_TRTP, 0)))
  }

  ghost predicate InTune(e: Ends, vx: Voice, vy: Voice)
    requires vx.hooks.Valid() && vy.hooks.Valid()
  {
    && OneEnd(e.x, e.y, vx, vy, e.sentX, e.sentY)
    && OneEnd(e.y, e.x, vy, vx, e.sentY, e.sentX)
  }

  /**
   * What the peers may do: start is over, the server queues once its handshake step ran or when it
   * is dead, and payloads have a size that a header can say.
   */
  predicate Lawful(x: Conn, call: Call) {
    && !call.Start?
    && (call.QueueTransaction? ==> Announceable(call.q) && (Began(x) || x.state == Dead))
  }

  function Asked(sent: seq<Request>, call: Call): seq<Request> {
    if call.QueueTransaction? then sent + [call.q] else sent
  }

  lemma ReadMoves(e: Ends, vx: Voice, vy: Voice, w: World)
    requires vx.hooks.Valid() && vy.hooks.Valid() && InTune(e, vx, vy)
    requires Readable(Armed(e.x, w)).link.delivered <= Said(e.y, Began(e.y))
    ensures InTune(e.(x := Readable(Armed(e.x, w))), vx, vy)
    ensures e.x.state == Established && Readable(Armed(e.x, w)).state == Dead && Drained(Armed(e.x, w)).1 ==>
              RefusedInTime(Readable(Armed(e.x, w)), vy.hooks, e.sentY)
  {
    hide Readable, Drained, CodedAll, Welcome, Announceable, Expected, QueueSound, Assembled, Absorbed,
         EncodedServerReply, FittingFront, RefusedInTime;
    var a := Armed(e.x, w);
    ArmedSane(e.x, w);
    ReadableSane(a);
    HearingIsInTheReceiver(e.x, a, vy.hooks, Said(e.y, Began(e.y)), e.sentY);
    ReadingHears(a, vy.hooks, vy.prologue, Began(e.y), e.sentY);
    ReadableSetup(a);
    var x' := Readable(a);
    NothingCoded(vx.hooks);
    if x'.handshakes != a.handshakes {
      assert Ordered(a);
      assert x'.handshakes == 1 && a.handshakes == 0;
    } else {
      SilentUntilBegun(e.x, x', vx, e.sentX);
    }
    MoreSpeech(e.y, vx.hooks, Said(e.x, Began(e.x)), Said(x', Began(x')), e.sentX);
  }

  /** An end that has queued nothing, or is dead, has no byte accepted that it had not before. */
  lemma SilentUntilBegun(x: Conn, x': Conn, vx: Voice, sentX: seq<Request>)
    requires vx.hooks.Valid() && Speaks(x, vx.hooks, vx.prologue, Began(x), sentX) && Sane(x')
    requires x'.queued == x.queued && (x.state == Dead ==> x'.link.accepted == x.link.accepted)
    ensures !Began(x) ==> x'.link.accepted == []
  {
    hide CodedAll, Assembled, Ordered, Unsent;
    NothingCoded(vx.hooks);
  }

  lemma NothingCoded(hooks: Hooks)
    requires hooks.Valid()
    ensures CodedAll(hooks, []) == (hooks, [])
  {
  }

  lemma ReadableSetup(c: Conn)
    requires c.Valid()
    ensures Readable(c).encoder == c.encoder && Readable(c).role == c.role && Readable(c).max == c.max
  {
    hide Drained, Parsed;
    DrainOnlyReads(c);
  }

  lemma QueueMoves(e: Ends, vx: Voice, vy: Voice, q: Request, w: World)
    requires vx.hooks.Valid() && vy.hooks.Valid() && InTune(e, vx, vy)
    requires Lawful(e.x, QueueTransaction(q))
    ensures InTune(e.(x := Queued(Armed(e.x, w), q), sentX := e.sentX + [q]), vx, vy)
  {
    hide Queued, CodedAll, Welcome, Announceable, Expected, QueueSound, Assembled, Absorbed, EncodedServerReply,
         FittingFront;
    var a := Armed(e.x, w);
    ArmedSane(e.x, w);
    QueuedSane(a, q);
    RequestExtendsSpeech(a, vx.hooks, vx.prologue, Began(a), e.sentX, q);
    var x' := Queued(a, q);
    HearingIsInTheReceiver(e.x, x', vy.hooks, Said(e.y, Began(e.y)), e.sentY);
    MoreSpeech(e.y, vx.hooks, Said(e.x, Began(e.x)), Said(x', Began(x')), e.sentX);
    MoreRequests(e.y, vx.hooks, Said(x', Began(x')), e.sentX, q);
  }

  /** A move that touches neither the receive state nor what was queued. */
  lemma QuietMoves(e: Ends, vx: Voice, vy: Voice, x': Conn)
    requires vx.hooks.Valid() && vy.hooks.Valid() && InTune(e, vx, vy) && Sane(x')
    requires x'.rx == e.x.rx && SameSetup(x'.(link := e.x.link), e.x) && x'.link.delivered == e.x.link.delivered
    requires x'.queued == e.x.queued && x'.handshakes == e.x.handshakes
    requires x'.state == e.x.state || x'.state == Dead
    requires e.x.state == Dead ==> x'.link.accepted == e.x.link.accepted
    ensures InTune(e.(x := x'), vx, vy)
  {
    hide CodedAll, Welcome, Announceable, Expected, Sane, Absorbed, EncodedServerReply, FittingFront;
    HearingIsInTheReceiver(e.x, x', vy.hooks, Said(e.y, Began(e.y)), e.sentY);
    SilentUntilBegun(e.x, x', vx, e.sentX);
  }

  /** Whatever lawful call one end makes, and whatever its socket does meanwhile, both stay in tune. */
  lemma MoveKeepsTune(e: Ends, vx: Voice, vy: Voice, call: Call, w: World)
    requires vx.hooks.Valid() && vy.hooks.Valid() && InTune(e, vx, vy)
    requires Lawful(e.x, call) && Called(e.x, call, w).link.delivered <= Said(e.y, Began(e.y))
    ensures InTune(e.(x := Called(e.x, call, w), sentX := Asked(e.sentX, call)), vx, vy)
  {
    hide Readable, Queued, Flushed, OneEnd, QueueSound, Assembled, Ordered;
    assert Sane(e.x) && e.x.state != Idle by { MoverIsSane(e, vx, vy); }
    CallKeepsSane(e.x, call, w);
    match call {
      case ServiceReadable => ReadMoves(e, vx, vy, w);
      case QueueTransaction(q) => QueueMoves(e, vx, vy, q, w);
      case ServiceWritable =>
        ArmedSane(e.x, w);
        FlushSane(Armed(e.x, w));
        QuietMoves(e, vx, vy, Called(e.x, call, w));
      case Close =>
        QuietMoves(e, vx, vy, Called(e.x, call, w));
    }
  }

  lemma MoverIsSane(e: Ends, vx: Voice, vy: Voice)
    requires vx.hooks.Valid() && vy.hooks.Valid() && InTune(e, vx, vy)
    ensures Sane(e.x) && e.x.state != Idle
  {
  }

  // ------------------------------------------------------------------
  // The network
  // ------------------------------------------------------------------

  /** Plain connections, or both ends keyed from one login. */
  datatype Security = Plain | Login(params: Cipher.Params, password: Bytes) {
    ghost predicate Valid() {
      Login? ==> params.hash.Valid()
    }
  }

  function ClientHooks(s: Security): (h: Hooks)
    requires s.Valid()
    ensures h.Valid() && h.Hooks? == s.Login?
  {
    match s
    case Plain => NoHooks
    case Login(p, password) => Hooks(p, Cipher.Opened(p, Derived(p.hash, password, p.session).second))
  }

  function ServerHooks(s: Security): (h: Hooks)
    requires s.Valid()
    ensures h.Valid() && h.Hooks? == s.Login?
  {
    match s
    case Plain => NoHooks
    case Login(p, password) => Hooks(p, Cipher.Opened(p, Derived(p.hash, password, p.session).first))
  }

  /**
   * What the two ends of a login code with: the client with the session key permuted three times under
   * the password, the server with it permuted twice, both from the start of a stream.
   */
  lemma LoginCodesWith(p: Cipher.Params, password: Bytes)
    requires p.hash.Valid()
    ensures var c, v := ClientHooks(Login(p, password)), ServerHooks(Login(p, password));
            && c.params == v.params == p
            && c.dir.key == Permuted(p.hash, p.session, password, 3)
            && v.dir.key == Permuted(p.hash, p.session, password, 2)
            && |c.dir.key| > 0 && |v.dir.key| > 0
            && KeyExpansion.IsExpansion(p.pi, c.dir.key, c.dir.schedule)
            && KeyExpansion.IsExpansion(p.pi, v.dir.key, v.dir.schedule)
            && c.dir.stream == v.dir.stream == Ofb.FRESH
  {
    hide Mac, KeyExpansion.Expanded, KeyExpansion.IsExpansion, Permuted;
    LoginKeysArePermutations(p.hash, password, p.session);
    KeyExpansion.ExpandedIsExpansion(p.pi, Derived(p.hash, password, p.session).first);
    KeyExpansion.ExpandedIsExpansion(p.pi, Derived(p.hash, password, p.session).second);
  }

  /** Both connections, and all requests made of each, oldest first. */
  datatype Net = Net(client: Conn, server: Conn, fromClient: seq<Request>, fromServer: seq<Request>) {
    ghost predicate Valid() {
      client.Valid() && server.Valid()
    }
  }

  /** How two peers are set up: limits, security, the client's handshake, and their first sockets. */
  datatype Setup = Setup(security: Security, clientMax: u32, serverMax: u32,
                         subProtocol: u32, subVersion: u16, clientWorld: World, serverWorld: World)

  function Opened(s: Setup): (n: Net)
    requires s.security.Valid()
    ensures n.Valid()
  {
    var clientSide, serverSide := ClientHooks(s.security), ServerHooks(s.security);
    Net(Called(Created(Client, s.clientMax, clientSide, serverSide), Start(s.subProtocol, s.subVersion), s.clientWorld),
        Called(Created(Server, s.serverMax, serverSide, clientSide), Start(s.subProtocol, s.subVersion), s.serverWorld),
        [], [])
  }

  datatype Move = ClientDoes(call: Call, world: World) | ServerDoes(call: Call, world: World)

  function Next(n: Net, m: Move): (r: Net)
    requires n.Valid()
    ensures r.Valid()
  {
    match m
    case ClientDoes(call, w) => n.(client := Called(n.client, call, w), fromClient := Asked(n.fromClient, call))
    case ServerDoes(call, w) => n.(server := Called(n.server, call, w), fromServer := Asked(n.fromServer, call))
  }

  /** The network hands over only bytes the other socket accepted, in order. */
  ghost predicate Possible(n: Net, m: Move)
    requires n.Valid()
  {
    match m
    case ClientDoes(call, _) =>
      Lawful(n.client, call) && Next(n, m).client.link.delivered <= n.server.link.accepted
    case ServerDoes(call, _) =>
      Lawful(n.server, call) && Next(n, m).server.link.delivered <= n.client.link.accepted
  }

  function After(n: Net, moves: seq<Move>): (r: Net)
    requires n.Valid()
    ensures r.Valid()
  {
    if moves == [] then n else Next(After(n, moves[..|moves| - 1]), moves[|moves| - 1])
  }

  ghost predicate AllPossible(n: Net, moves: seq<Move>)
    requires n.Valid()
  {
    moves == [] ||
    (&& AllPossible(n, moves[..|moves| - 1])
     && Possible(After(n, moves[..|moves| - 1]), moves[|moves| - 1]))
  }

  function ClientVoice(s: Setup): (v: Voice)
    requires s.security.Valid()
    ensures v.hooks.Valid()
  {
    Voice(ClientHooks(s.security),
          EncodedClientHandshake(ClientHandshake(PROTOCOL_TRTP, s.subProtocol, PROTOCOL_VERSION, s.subVersion)))
  }

  function ServerVoice(s: Setup): (v: Voice)
    requires s.security.Valid()
    ensures v.hooks.Valid()
  {
    Voice(ServerHooks(s.security), EncodedServerReply(ServerReply(PROTOCOL_TRTP, 0)))
  }

  ghost predicate NetInTune(s: Setup, n: Net)
    requires s.security.Valid()
  {
    && n.client.role == Client && n.server.role == Server
    && InTune(Ends(n.client, n.server, n.fromClient, n.fromServer), ClientVoice(s), ServerVoice(s))
  }

  /** An end that heard nothing yet and said its handshake at most. */
  lemma OneEndOpens(x: Conn, y: Conn, vx: Voice, vy: Voice)
    requires vx.hooks.Valid() && vy.hooks.Valid() && Sane(x)
    requires x.rx == Unheard(vy.hooks) && x.encoder == vx.hooks && x.link.delivered == []
    requires x.state != Idle && x.state != Closing && x.handshakes == 0
    requires x.queued == if x.role == Client then vx.prologue else []
    requires Welcome(y.role, vx.prologue)
    requires x.role == Server ==> vx.prologue == EncodedServerReply(ServerReply(PROTOCOL_TRTP, 0))
    ensures OneEnd(x, y, vx, vy, [], [])
  {
    hide Welcome, EncodedServerReply, Unsent, Assembled, Ordered;
    NothingCoded(vx.hooks);
    if x.role == Client {
      assert vx.prologue + [] == vx.prologue;
    }
    assert [] + [] == x.rx.inbound;
  }

  lemma OpenedInTune(s: Setup)
    requires s.security.Valid()
    ensures NetInTune(s, Opened(s))
  {
    hide Called, ClientHooks, ServerHooks, DecodedClientHandshake, DecodedServerReply, EncodedClientHandshake,
         EncodedServerReply, Sane, OneEnd;
    var clientSide, serverSide := ClientHooks(s.security), ServerHooks(s.security);
    var h := ClientHandshake(PROTOCOL_TRTP, s.subProtocol, PROTOCOL_VERSION, s.subVersion);
    OpeningBytes(h);
    AcceptanceIs();
    var c := Created(Client, s.clientMax, clientSide, serverSide);
    var v := Created(Server, s.serverMax, serverSide, clientSide);
    CreatedSane(Client, s.clientMax, clientSide, serverSide);
    CreatedSane(Server, s.serverMax, serverSide, clientSide);
    CallKeepsSane(c, Start(s.subProtocol, s.subVersion), s.clientWorld);
    CallKeepsSane(v, Start(s.subProtocol, s.subVersion), s.serverWorld);
    ClientOpens(c, s, h);
    ServerOpens(v, s);
    var n := Opened(s);
    OneEndOpens(n.client, n.server, ClientVoice(s), ServerVoice(s));
    OneEndOpens(n.server, n.client, ServerVoice(s), ClientVoice(s));
  }

  lemma ServerOpens(v: Conn, s: Setup)
    requires s.security.Valid() && v == Created(Server, s.serverMax, ServerHooks(s.security), ClientHooks(s.security))
    ensures var r := Called(v, Start(s.subProtocol, s.subVersion), s.serverWorld);
            && r.queued == [] && r.rx == v.rx && r.link.delivered == [] && r.encoder == v.encoder
            && r.role == Server && r.handshakes == 0 && r.max == v.max && r.state == AwaitingHandshake
  {
    hide ClientHooks, ServerHooks;
  }

  lemma ClientOpens(c: Conn, s: Setup, h: ClientHandshake)
    requires s.security.Valid() && c == Created(Client, s.clientMax, ClientHooks(s.security), ServerHooks(s.security))
    requires h == ClientHandshake(PROTOCOL_TRTP, s.subProtocol, PROTOCOL_VERSION, s.subVersion)
    ensures var r := Called(c, Start(s.subProtocol, s.subVersion), s.clientWorld);
            && r.queued == EncodedClientHandshake(h) && r.rx == c.rx && r.link.delivered == []
            && r.encoder == c.encoder && r.role == Client && r.handshakes == 0 && r.max == c.max
            && (r.state == AwaitingReply || r.state == Dead)
  {
    hide Flushed, ClientHooks, ServerHooks, EncodedClientHandshake;
    var link := Link(true, s.clientWorld.sends, s.clientWorld.receives, [], []);
    FlushEndsAs(Enqueued(c.(link := link, state := AwaitingReply), EncodedClientHandshake(h)));
  }

  lemma NextInTune(s: Setup, n: Net, m: Move)
    requires s.security.Valid() && n.Valid() && NetInTune(s, n) && Possible(n, m)
    ensures NetInTune(s, Next(n, m))
  {
    hide Called, ClientVoice, ServerVoice, OneEnd, CodedAll;
    AcceptedIsQueued(s, n);
    match m {
      case ClientDoes(call, w) =>
        CallKeepsRole(n.client, call, w);
        MoveKeepsTune(Ends(n.client, n.server, n.fromClient, n.fromServer), ClientVoice(s), ServerVoice(s), call, w);
      case ServerDoes(call, w) =>
        CallKeepsRole(n.server, call, w);
        MoveKeepsTune(Ends(n.server, n.client, n.fromServer, n.fromClient), ServerVoice(s), ClientVoice(s), call, w);
    }
  }

  lemma AcceptedIsQueued(s: Setup, n: Net)
    requires s.security.Valid() && NetInTune(s, n)
    ensures n.client.link.accepted <= Said(n.client, Began(n.client))
    ensures n.server.link.accepted <= Said(n.server, Began(n.server))
  {
    hide CodedAll, Unsent, Assembled, Ordered, ClientVoice, ServerVoice, Welcome, Hears;
  }

  lemma CallKeepsRole(c: Conn, call: Call, w: World)
    requires c.Valid()
    ensures Called(c, call, w).role == c.role
  {
    hide Flushed, Readable, Coded, EncodedClientHandshake;
    ReadableSetup(Armed(c, w));
  }

  lemma {:induction false} AlwaysInTune(s: Setup, moves: seq<Move>)
    requires s.security.Valid() && AllPossible(Opened(s), moves)
    ensures NetInTune(s, After(Opened(s), moves))
  {
    hide NetInTune, Next, Possible, Opened;
    if moves == [] {
      OpenedInTune(s);
    } else {
      var n := After(Opened(s), moves[..|moves| - 1]);
      AlwaysInTune(s, moves[..|moves| - 1]);
      NextInTune(s, n, moves[|moves| - 1]);
    }
  }

  /**
   * End-to-end delivery. For every setup, plain or encrypted, and every run of lawful calls on both
   * ends with any partial writes, read fragmentation, failures and interleaving: each end's
   * on_transaction sequence is a front, field for field, of the requests made of the other end
   * before the first that does not fit this end; it is all requests made, and all fit, once a live
   * end was handed every byte the other queued.
   */
  lemma TransactionsAreDelivered(s: Setup, moves: seq<Move>)
    requires s.security.Valid() && AllPossible(Opened(s), moves)
    ensures var n := After(Opened(s), moves);
            var toServer := FittingFront(n.fromClient, n.server.max);
            var toClient := FittingFront(n.fromServer, n.client.max);
            && FiredInOrder(n.server.log, n.server.rx.asm.dispatched)
            && FiredInOrder(n.client.log, n.client.rx.asm.dispatched)
            && CarriesFront(n.server.rx.asm.dispatched, toServer, s.security.Login?)
            && CarriesFront(n.client.rx.asm.dispatched, toClient, s.security.Login?)
            && (Live(n.server) && n.server.link.delivered == n.client.queued ==>
                  toServer == n.fromClient && CarriesAll(n.server.rx.asm.dispatched, n.fromClient, s.security.Login?))
            && (Live(n.client) && n.client.link.delivered == n.server.queued ==>
                  toClient == n.fromServer && CarriesAll(n.client.rx.asm.dispatched, n.fromServer, s.security.Login?))
  {
    hide After, AllPossible, Opened, Welcome, Absorbed, CodedAll, ExpectedAll, Announceable, QueueSound, Assembled,
         EncodedServerReply, EncodedClientHandshake, FittingFront, CarriesFront, CarriesAll;
    AlwaysInTune(s, moves);
    var n := After(Opened(s), moves);
    var vc, vs := ClientVoice(s), ServerVoice(s);
    DispatchedCarries(n.server, n.fromClient, s.security.Login?);
    DispatchedCarries(n.client, n.fromServer, s.security.Login?);
    if Live(n.server) && n.server.link.delivered == n.client.queued {
      AllHeard(n.server, vc.hooks, vc.prologue, n.fromClient);
    }
    if Live(n.client) && n.client.link.delivered == n.server.queued {
      if Began(n.server) {
        AllHeard(n.client, vs.hooks, vs.prologue, n.fromServer);
      } else {
        SomethingCoded(vs.hooks, n.fromServer);
      }
    }
  }

  /** What an end dispatched, said of the fields of the requests. */
  lemma DispatchedCarries(y: Conn, sent: seq<Request>, coded: bool)
    requires y.rx.asm.dispatched <= ExpectedAll(FittingFront(sent, y.max), coded)
    ensures CarriesFront(y.rx.asm.dispatched, FittingFront(sent, y.max), coded)
    ensures y.rx.asm.dispatched == ExpectedAll(FittingFront(sent, y.max), coded) ==>
              CarriesAll(y.rx.asm.dispatched, FittingFront(sent, y.max), coded)
  {
    hide ExpectedAll, CarriesFront, Fits;
    ExpectedFrontCarries(FittingFront(sent, y.max), coded, y.max, y.rx.asm.dispatched);
  }

  lemma SomethingCoded(hooks: Hooks, qs: seq<Request>)
    requires hooks.Valid() && CodedAll(hooks, qs).1 == []
    ensures qs == []
  {
    hide Coded;
  }

  /** The end that a move is made on, and what the other was asked to send it. */
  function Mover(n: Net, m: Move): (Conn, seq<Request>) {
    if m.ClientDoes? then (n.client, n.fromServer) else (n.server, n.fromClient)
  }

  /**
   * A request that does not fit ends the receiving connection, and exactly there: when in any run a
   * read kills an established end whose socket does not fail, that end has dispatched precisely the
   * requests made of the other before the first that does not fit, and there is one such.
   */
  lemma UnfitRequestEndsDelivery(s: Setup, moves: seq<Move>, m: Move)
    requires s.security.Valid() && AllPossible(Opened(s), moves)
    requires var n := After(Opened(s), moves);
             && Possible(n, m) && m.call == ServiceReadable && ReceiveFails !in m.world.receives
             && Mover(n, m).0.state == Established && Mover(n, m).0.link.open
             && Mover(Next(n, m), m).0.state == Dead
    ensures var (end, asked) := Mover(Next(After(Opened(s), moves), m), m);
            && FittingFront(asked, end.max) != asked
            && CarriesAll(end.rx.asm.dispatched, FittingFront(asked, end.max), s.security.Login?)
  {
    hide After, AllPossible, Opened, Readable, Drained, OneEnd, FittingFront, ExpectedAll, CarriesAll;
    AlwaysInTune(s, moves);
    var n := After(Opened(s), moves);
    var vc, vs := ClientVoice(s), ServerVoice(s);
    AcceptedIsQueued(s, n);
    if m.ClientDoes? {
      DrainSucceeds(Armed(n.client, m.world));
      ReadMoves(Ends(n.client, n.server, n.fromClient, n.fromServer), vc, vs, m.world);
      DispatchedCarries(Next(n, m).client, n.fromServer, s.security.Login?);
    } else {
      DrainSucceeds(Armed(n.server, m.world));
      ReadMoves(Ends(n.server, n.client, n.fromServer, n.fromClient), vs, vc, m.world);
      DispatchedCarries(Next(n, m).server, n.fromClient, s.security.Login?);
    }
  }
}
