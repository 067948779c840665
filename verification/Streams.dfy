/** The byte stream one side queues, and what the other side's receive engine makes of it. */
module Streams {
  import opened Endian
  import opened Wire
  import opened Reassembly
  import opened Receiver
  import opened Connection
  import Cipher = TransactionCipher

  // ------------------------------------------------------------------
  // The receive engine run until it waits
  // ------------------------------------------------------------------

  /** All steps the buffer allows; true when the policy refused a header. */
  function Swallowed(max: u32, rx: Rx): (r: (Rx, bool))
    requires rx.Valid() && rx.stage != AwaitHandshake
    ensures r.0.Valid() && r.0.stage != AwaitHandshake
    ensures rx.asm.dispatched <= r.0.asm.dispatched
    decreases |rx.inbound|
  {
    match Step(max, rx)
    case Wait => (rx, false)
    case Refused(rx') => (rx', true)
    case Next(rx') => Swallowed(max, rx')
  }

  lemma {:induction false} SwallowSplits(max: u32, rx: Rx, more: Bytes)
    requires rx.Valid() && rx.stage != AwaitHandshake
    ensures var (r, refused) := Swallowed(max, rx);
            && (!refused ==> Swallowed(max, Append(rx, more)) == Swallowed(max, Append(r, more)))
            && (refused ==> Swallowed(max, Append(rx, more)) == (Append(r, more), true))
    decreases |rx.inbound|
  {
    hide Step;
    StepExtends(max, rx, more);
    match Step(max, rx) {
      case Wait =>
      case Refused(rx') =>
      case Next(rx') => SwallowSplits(max, rx', more);
    }
  }

  // ------------------------------------------------------------------
  // One transaction
  // ------------------------------------------------------------------

  /** A request a receiver with this limit accepts. */
  predicate Fits(q: Request, max: u32) {
    0 < |q.data| <= max
  }

  /** A payload whose size a header can say. */
  predicate Announceable(q: Request) {
    |q.data| < 0x1_0000_0000
  }

  /** The transaction a request should be received as. */
  function Expected(q: Request, coded: bool): Message {
    Message(HeaderFor(q, coded), q.data)
  }

  /** A transaction that carries a request, field for field; its flag is what the sender's hook chose. */
  predicate Carries(m: Message, q: Request, coded: bool) {
    && m.header.kind == q.kind
    && m.header.id == q.id
    && m.header.isReply == (if q.isReply then 1 else 0)
    && m.header.error == q.error
    && m.header.totalSize == m.header.dataSize == |q.data|
    && m.header.flag == (if coded then q.flag else 0)
    && m.data == q.data
  }

  ghost predicate CarriesFront(ms: seq<Message>, qs: seq<Request>, coded: bool) {
    |ms| <= |qs| && forall i :: 0 <= i < |ms| ==> Carries(ms[i], qs[i], coded)
  }

  ghost predicate CarriesAll(ms: seq<Message>, qs: seq<Request>, coded: bool) {
    |ms| == |qs| && CarriesFront(ms, qs, coded)
  }

  /** The one more transaction is this request. */
  ghost predicate ReceivedAs(before: seq<Message>, after: seq<Message>, q: Request, coded: bool) {
    |after| == |before| + 1 && before == after[..|before|] && Carries(after[|before|], q, coded)
  }

  /** What a request should be received as carries it exactly when a header can say its size. */
  lemma ExpectedCarries(q: Request, coded: bool)
    ensures Carries(Expected(q, coded), q, coded) <==> Announceable(q)
  {
  }

  /** Between transactions: nothing buffered, and the decoder where the encoder is. */
  ghost predicate Clean(rx: Rx, encoder: Hooks) {
    rx.stage == AwaitHeader && rx.inbound == [] && rx.hooks == encoder
  }

  lemma HeaderSurvives(encoder: Hooks, q: Request)
    requires encoder.Valid()
    ensures var bytes := Coded(encoder, q).1;
            var (hooks, plain, flag) := HeaderIn(encoder, bytes[..HEADER_SIZE]);
            && plain == EncodedHeader(HeaderFor(q, encoder.Hooks?))
            && flag == (if encoder.Hooks? then q.flag else 0)
            && DataIn(hooks, bytes[HEADER_SIZE..], flag) == (Coded(encoder, q).0, q.data)
  {
    hide Cipher.Passed, Cipher.PassedData;
    var header := EncodedHeader(HeaderFor(q, encoder.Hooks?));
    var bytes := Coded(encoder, q).1;
    if encoder.Hooks? {
      var (params, dir) := (encoder.params, encoder.dir);
      var m := Cipher.Sealed(params, dir, Cipher.Packet(header, q.data), q.flag).1;
      assert bytes[..HEADER_SIZE] == m.header && bytes[HEADER_SIZE..] == m.data;
      Cipher.PassCancels(dir, header);
      Cipher.PassDataCancels(params, Cipher.Passed(dir, header).0, q.data, q.flag);
    } else {
      assert bytes[..HEADER_SIZE] == header && bytes[HEADER_SIZE..] == q.data;
    }
  }

  /** From a clean state the bytes of one fitting request are received as exactly that request. */
  lemma TransactionArrives(max: u32, rx: Rx, encoder: Hooks, q: Request)
    requires rx.Valid() && encoder.Valid() && Clean(rx, encoder) && Fits(q, max)
    ensures var (encoder', bytes) := Coded(encoder, q);
            var (r, refused) := Swallowed(max, Append(rx, bytes));
            && !refused
            && Clean(r, encoder')
            && r.asm.dispatched == rx.asm.dispatched + [Expected(q, encoder.Hooks?)]
            && ReceivedAs(rx.asm.dispatched, r.asm.dispatched, q, encoder.Hooks?)
  {
    hide Coded, HeaderIn, DataIn, EncodedHeader, DecodedHeader, Carries;
    ExpectedCarries(q, encoder.Hooks?);
    var (encoder', bytes) := Coded(encoder, q);
    var h := HeaderFor(q, encoder.Hooks?);
    var a := Append(rx, bytes);
    assert a.inbound == bytes;
    HeaderSurvives(encoder, q);
    HeaderRoundTrip(h);
    var (hooks, plain, flag) := HeaderIn(encoder, bytes[..HEADER_SIZE]);
    var b := a.(inbound := bytes[HEADER_SIZE..], hooks := hooks, flag := flag, header := h, stage := AwaitData);
    assert Step(max, a) == Next(b);
    var c := Step(max, b);
    assert b.inbound[..|q.data|] == b.inbound;
    assert c.Next? && c.rx.inbound == [];
    assert Step(max, c.rx) == Wait;
    SwallowWaits(max, c.rx);
    SwallowNext(max, b);
    SwallowNext(max, a);
  }

  /**
   * From a clean state a request is received as sent, without refusal, if and only if it is not
   * empty and within the receiver's limit; a size of 2^32 or more is announced modulo 2^32.
   */
  lemma ArrivesIffFits(max: u32, rx: Rx, encoder: Hooks, q: Request)
    requires rx.Valid() && encoder.Valid() && Clean(rx, encoder)
    ensures var (r, refused) := Swallowed(max, Append(rx, Coded(encoder, q).1));
            (!refused && ReceivedAs(rx.asm.dispatched, r.asm.dispatched, q, encoder.Hooks?)) <==> Fits(q, max)
  {
    hide Coded, HeaderIn, DataIn, EncodedHeader, DecodedHeader, Swallowed;
    if Fits(q, max) {
      TransactionArrives(max, rx, encoder, q);
    } else {
      var bytes := Coded(encoder, q).1;
      var h := HeaderFor(q, encoder.Hooks?);
      var a := Append(rx, bytes);
      assert a.inbound == bytes;
      HeaderSurvives(encoder, q);
      HeaderRoundTrip(h);
      if Refusable(h, max) {
        SwallowRefused(max, a);
      } else {
        SwallowNext(max, a);
        var b := Step(max, a).rx;
        SwallowNext(max, b);
        var c := Step(max, b).rx;
        var k := |rx.asm.dispatched|;
        assert |c.asm.dispatched| == k + 1 && |c.asm.dispatched[k].data| == h.dataSize < |q.data|;
        assert Swallowed(max, c).0.asm.dispatched[k] == c.asm.dispatched[k];
      }
    }
  }

  lemma SwallowRefused(max: u32, rx: Rx)
    requires rx.Valid() && rx.stage != AwaitHandshake && Step(max, rx).Refused?
    ensures Swallowed(max, rx) == (Step(max, rx).rx, true)
  {
    hide Step;
  }

  lemma SwallowNext(max: u32, rx: Rx)
    requires rx.Valid() && rx.stage != AwaitHandshake && Step(max, rx).Next?
    ensures Swallowed(max, rx) == Swallowed(max, Step(max, rx).rx)
  {
    hide Step;
  }

  lemma SwallowWaits(max: u32, rx: Rx)
    requires rx.Valid() && rx.stage != AwaitHandshake && Step(max, rx) == Wait
    ensures Swallowed(max, rx) == (rx, false)
  {
    hide Step;
  }

  // ------------------------------------------------------------------
  // Many transactions
  // ------------------------------------------------------------------

  /** The encode side after some requests, and all their bytes. */
  function CodedAll(encoder: Hooks, qs: seq<Request>): (r: (Hooks, Bytes))
    requires encoder.Valid()
    ensures r.0.Valid()
    ensures r.0.Hooks? == encoder.Hooks?
  {
    if qs == [] then (encoder, [])
    else
      var (e, bytes) := CodedAll(encoder, qs[..|qs| - 1]);
      var (e', last) := Coded(e, qs[|qs| - 1]);
      (e', bytes + last)
  }

  function ExpectedAll(qs: seq<Request>, coded: bool): (r: seq<Message>)
    ensures |r| == |qs|
  {
    seq(|qs|, i requires 0 <= i < |qs| => Expected(qs[i], coded))
  }

  /** A front of what some fitting requests should be received as carries a front of them. */
  lemma ExpectedFrontCarries(qs: seq<Request>, coded: bool, max: u32, ms: seq<Message>)
    requires ms <= ExpectedAll(qs, coded) && forall q :: q in qs ==> Fits(q, max)
    ensures CarriesFront(ms, qs, coded)
    ensures ms == ExpectedAll(qs, coded) ==> CarriesAll(ms, qs, coded)
  {
    hide Expected, Carries;
    forall i | 0 <= i < |ms| ensures Carries(ms[i], qs[i], coded) {
      assert qs[i] in qs && ms[i] == ExpectedAll(qs, coded)[i];
      ExpectedCarries(qs[i], coded);
    }
  }

  /** A whole stream of fitting requests is received whole, in order, and leaves a clean state. */
  lemma {:induction false} StreamArrives(max: u32, rx: Rx, encoder: Hooks, qs: seq<Request>)
    requires rx.Valid() && encoder.Valid() && Clean(rx, encoder)
    requires forall q :: q in qs ==> Fits(q, max)
    ensures var (encoder', bytes) := CodedAll(encoder, qs);
            var (r, refused) := Swallowed(max, Append(rx, bytes));
            && !refused
            && Clean(r, encoder')
            && r.asm.dispatched == rx.asm.dispatched + ExpectedAll(qs, encoder.Hooks?)
  {
    hide Step, Coded, Fits, Swallowed, Expected;
    if qs == [] {
      assert Append(rx, []) == rx;
      SwallowWaits(max, rx) by { NothingToStep(max, rx); }
    } else {
      var front, q := qs[..|qs| - 1], qs[|qs| - 1];
      StreamArrives(max, rx, encoder, front);
      var (e, bytes) := CodedAll(encoder, front);
      var (e', last) := Coded(e, q);
      var r := Swallowed(max, Append(rx, bytes)).0;
      SwallowSplits(max, Append(rx, bytes), last);
      assert rx.inbound + bytes + last == rx.inbound + (bytes + last);
      assert Append(Append(rx, bytes), last) == Append(rx, bytes + last);
      assert q in qs;
      TransactionArrives(max, r, e, q);
      assert ExpectedAll(qs, encoder.Hooks?) == ExpectedAll(front, encoder.Hooks?) + [Expected(q, encoder.Hooks?)];
    }
  }

  lemma NothingToStep(max: u32, rx: Rx)
    requires rx.Valid() && rx.stage == AwaitHeader && rx.inbound == []
    ensures Step(max, rx) == Wait
  {
  }

  /** Any front of such a stream is received without refusal as a front of the requests. */
  lemma StreamFrontArrives(max: u32, rx: Rx, encoder: Hooks, qs: seq<Request>, n: nat)
    requires rx.Valid() && encoder.Valid() && Clean(rx, encoder)
    requires forall q :: q in qs ==> Fits(q, max)
    requires n <= |CodedAll(encoder, qs).1|
    ensures var (r, refused) := Swallowed(max, Append(rx, CodedAll(encoder, qs).1[..n]));
            && !refused
            && r.asm.dispatched <= rx.asm.dispatched + ExpectedAll(qs, encoder.Hooks?)
            && (n == |CodedAll(encoder, qs).1| ==>
                  r.asm.dispatched == rx.asm.dispatched + ExpectedAll(qs, encoder.Hooks?))
  {
    hide Step, CodedAll, Fits, Expected;
    var bytes := CodedAll(encoder, qs).1;
    StreamArrives(max, rx, encoder, qs);
    assert bytes == bytes[..n] + bytes[n..];
    assert rx.inbound + bytes[..n] + bytes[n..] == rx.inbound + bytes;
    assert Append(Append(rx, bytes[..n]), bytes[n..]) == Append(rx, bytes);
    SwallowSplits(max, Append(rx, bytes[..n]), bytes[n..]);
    if n == |bytes| {
      assert bytes[..n] == bytes;
    }
  }

  // ------------------------------------------------------------------
  // Requests that do not fit
  // ------------------------------------------------------------------

  /** The requests before the first that does not fit. */
  function FittingFront(qs: seq<Request>, max: u32): (front: seq<Request>)
    ensures front <= qs
    ensures forall q :: q in front ==> Fits(q, max)
    ensures |front| < |qs| ==> !Fits(qs[|front|], max)
  {
    if qs == [] then []
    else
      var front := FittingFront(qs[..|qs| - 1], max);
      if |front| == |qs| - 1 && Fits(qs[|qs| - 1], max) then qs else front
  }

  /** More requests never make the fitting front shorter. */
  lemma FrontGrows(qs: seq<Request>, q: Request, max: u32)
    ensures FittingFront(qs, max) <= FittingFront(qs + [q], max)
  {
    hide Fits;
    assert (qs + [q])[..|qs|] == qs;
  }

  lemma {:induction false} CodedFront(encoder: Hooks, qs: seq<Request>, k: nat)
    requires encoder.Valid() && k <= |qs|
    ensures CodedAll(encoder, qs[..k]).1 <= CodedAll(encoder, qs).1
  {
    hide Coded;
    if k == |qs| {
      assert qs[..k] == qs;
    } else {
      var front := qs[..|qs| - 1];
      CodedFront(encoder, front, k);
      assert front[..k] == qs[..k];
    }
  }

  /** What follows the bytes of the first `k` requests begins with the bytes of the next. */
  lemma CodedNext(encoder: Hooks, qs: seq<Request>, k: nat)
    requires encoder.Valid() && k < |qs|
    ensures var (e, bytes) := CodedAll(encoder, qs[..k]);
            && bytes + Coded(e, qs[k]).1 <= CodedAll(encoder, qs).1
            && |bytes| + HEADER_SIZE <= |CodedAll(encoder, qs).1|
  {
    hide Coded;
    CodedFront(encoder, qs, k + 1);
    var (e, bytes) := CodedAll(encoder, qs[..k]);
    assert qs[..k + 1][..k] == qs[..k] && qs[..k + 1][k] == qs[k];
    assert CodedAll(encoder, qs[..k + 1]).1 == bytes + Coded(e, qs[k]).1;
    var next := Coded(e, qs[k]).1;
    assert |next| >= HEADER_SIZE;
    assert bytes + next <= CodedAll(encoder, qs).1;
    assert |bytes + next| == |bytes| + |next| <= |CodedAll(encoder, qs).1|;
  }

  /** The header alone of a request that does not fit is refused, whatever follows it. */
  lemma UnfitIsRefused(max: u32, rx: Rx, encoder: Hooks, q: Request, tail: Bytes)
    requires rx.Valid() && encoder.Valid() && Clean(rx, encoder) && !Fits(q, max) && Announceable(q)
    requires |tail| >= HEADER_SIZE && tail[..HEADER_SIZE] == Coded(encoder, q).1[..HEADER_SIZE]
    ensures var (r, refused) := Swallowed(max, Append(rx, tail));
            refused && r.asm == rx.asm
  {
    hide Coded, HeaderIn, DataIn, EncodedHeader, DecodedHeader, Swallowed;
    var h := HeaderFor(q, encoder.Hooks?);
    var a := Append(rx, tail);
    assert a.inbound == tail;
    HeaderSurvives(encoder, q);
    HeaderRoundTrip(h);
    assert Refusable(h, max);
    SwallowRefused(max, a);
  }

  /**
   * Any front of any stream: what is received is a front of the requests before the first that does
   * not fit, all of them once their bytes are there, and the header of that first one is refused.
   */
  lemma FrontArrives(max: u32, rx: Rx, encoder: Hooks, qs: seq<Request>, n: nat)
    requires rx.Valid() && encoder.Valid() && Clean(rx, encoder)
    requires forall q :: q in qs ==> Announceable(q)
    requires n <= |CodedAll(encoder, qs).1|
    ensures var front := FittingFront(qs, max);
            var k := |CodedAll(encoder, front).1|;
            var (r, refused) := Swallowed(max, Append(rx, CodedAll(encoder, qs).1[..n]));
            && r.asm.dispatched <= rx.asm.dispatched + ExpectedAll(front, encoder.Hooks?)
            && (n >= k ==> r.asm.dispatched == rx.asm.dispatched + ExpectedAll(front, encoder.Hooks?))
            && (refused <==> front != qs && n >= k + HEADER_SIZE)
  {
    hide Step, Coded, CodedAll, Fits, Announceable, Expected, Swallowed, FittingFront;
    var front := FittingFront(qs, max);
    var all := CodedAll(encoder, qs).1;
    var (e, bytes) := CodedAll(encoder, front);
    assert front == qs[..|front|];
    CodedFront(encoder, qs, |front|);
    if n <= |bytes| {
      assert all[..n] == bytes[..n];
      StreamFrontArrives(max, rx, encoder, front, n);
    } else {
      assert |front| < |qs| by { assert front != qs; }
      var q, tail := qs[|front|], all[|bytes|..n];
      CodedNext(encoder, qs, |front|);
      StreamArrives(max, rx, encoder, front);
      var r := Swallowed(max, Append(rx, bytes)).0;
      SwallowSplits(max, Append(rx, bytes), tail);
      assert all[..n] == bytes + tail;
      assert rx.inbound + bytes + tail == rx.inbound + (bytes + tail);
      assert Append(Append(rx, bytes), tail) == Append(rx, all[..n]);
      assert q in qs;
      if |tail| >= HEADER_SIZE {
        HeaderOfTail(all, bytes, Coded(e, q).1, n);
        UnfitIsRefused(max, r, e, q, tail);
      } else {
        ShortOfHeader(max, Append(r, tail));
      }
    }
  }

  lemma HeaderOfTail(all: Bytes, bytes: Bytes, next: Bytes, n: nat)
    requires bytes + next <= all && |bytes| + HEADER_SIZE <= n <= |all| && |next| >= HEADER_SIZE
    ensures all[|bytes|..n][..HEADER_SIZE] == next[..HEADER_SIZE]
  {
    assert (bytes + next)[..|bytes| + HEADER_SIZE] == all[..|bytes| + HEADER_SIZE];
    assert all[|bytes|..n][..HEADER_SIZE] == all[..|bytes| + HEADER_SIZE][|bytes|..];
    assert next[..HEADER_SIZE] == (bytes + next)[..|bytes| + HEADER_SIZE][|bytes|..];
  }

  lemma ShortOfHeader(max: u32, rx: Rx)
    requires rx.Valid() && rx.stage == AwaitHeader && |rx.inbound| < HEADER_SIZE
    ensures Swallowed(max, rx) == (rx, false)
  {
  }

  // ------------------------------------------------------------------
  // Parts as plain bytes
  // ------------------------------------------------------------------

  function PartBytes(part: Message): Bytes {
    EncodedHeader(part.header) + part.data
  }

  function PartsBytes(parts: seq<Message>): Bytes {
    if parts == [] then [] else PartsBytes(parts[..|parts| - 1]) + PartBytes(parts[|parts| - 1])
  }

  /** From a clean plain state the bytes of any part the policy allows complete exactly that part. */
  lemma PartIsTaken(max: u32, rx: Rx, part: Message)
    requires rx.Valid() && Clean(rx, NoHooks) && Allowed(part, max)
    ensures var (r, refused) := Swallowed(max, Append(rx, PartBytes(part)));
            !refused && Clean(r, NoHooks) && r.asm == Taken(rx.asm, part)
  {
    hide EncodedHeader, DecodedHeader, Taken;
    var h := part.header;
    var bytes := PartBytes(part);
    var a := Append(rx, bytes);
    assert a.inbound == bytes;
    HeaderRoundTrip(h);
    assert bytes[..HEADER_SIZE] == EncodedHeader(h) && bytes[HEADER_SIZE..] == part.data;
    var b := a.(inbound := part.data, flag := 0, header := h, stage := AwaitData);
    assert Step(max, a) == Next(b);
    assert part.data[..|part.data|] == part.data;
    var c := Step(max, b).rx;
    SwallowNext(max, a);
    SwallowNext(max, b);
    SwallowWaits(max, c);
  }

  /** A plain stream of allowed parts is what the assembly makes of them in turn. */
  lemma {:induction false} PartsAreTaken(max: u32, rx: Rx, parts: seq<Message>)
    requires rx.Valid() && Clean(rx, NoHooks) && forall m :: m in parts ==> Allowed(m, max)
    ensures var (r, refused) := Swallowed(max, Append(rx, PartsBytes(parts)));
            !refused && Clean(r, NoHooks) && r.asm == TakenAll(rx.asm, parts)
  {
    hide Step, PartBytes, Swallowed, Taken, Allowed;
    if parts == [] {
      assert Append(rx, []) == rx;
      SwallowWaits(max, rx) by { NothingToStep(max, rx); }
    } else {
      var front, last := parts[..|parts| - 1], parts[|parts| - 1];
      PartsAreTaken(max, rx, front);
      var bytes, more := PartsBytes(front), PartBytes(last);
      SwallowSplits(max, Append(rx, bytes), more);
      assert rx.inbound + bytes + more == rx.inbound + (bytes + more);
      assert Append(Append(rx, bytes), more) == Append(rx, bytes + more);
      assert last in parts;
      PartIsTaken(max, Swallowed(max, Append(rx, bytes)).0, last);
    }
  }

  /** The headers and payloads of two plain parts that a new receiver dispatches as 2 max - 1 bytes. */
  lemma BoundIsReachedOnTheWire(max: u32, rx: Rx) returns (parts: seq<Message>)
    requires max >= 2 && rx.Valid() && Clean(rx, NoHooks) && rx.asm == NOTHING
    ensures |parts| == 2
    ensures var (r, refused) := Swallowed(max, Append(rx, PartsBytes(parts)));
            && !refused
            && |r.asm.dispatched| == 1
            && |r.asm.dispatched[0].data| == 2 * max - 1
  {
    hide Swallowed, Taken, PartsBytes, Allowed;
    parts := BoundIsReached(max);
    PartsAreTaken(max, rx, parts);
  }
}
