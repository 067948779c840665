/** The stream socket as a script of outcomes: what each send accepts and each receive delivers. */
module Socket {
  import opened Endian

  const SCRATCH_SIZE: nat := 4096

  /** What one successful receive hands over: never empty, never more than the caller's buffer. */
  type Chunk = b: Bytes | 1 <= |b| <= SCRATCH_SIZE
    witness [0]

  datatype SendOutcome = Accepts(n: nat) | SendBlocks | SendInterrupted | SendFails
  datatype ReceiveOutcome = Delivers(bytes: Chunk) | ReceiveBlocks | ReceiveInterrupted | ReceiveFails

  /** A socket: the outcomes still to come, and all bytes accepted from and delivered to its owner. */
  datatype Link = Link(open: bool, sends: seq<SendOutcome>, receives: seq<ReceiveOutcome>,
                       accepted: Bytes, delivered: Bytes)

  const UNOPENED := Link(false, [], [], [], [])

  datatype SendResult = Sent(n: nat) | SendWouldBlock | SendRetry | SendError
  datatype ReceiveResult = Received(bytes: Chunk) | ReceiveWouldBlock | ReceiveRetry | ReceiveError

  /** An exhausted script blocks; a closed socket and an empty buffer are errors. */
  function Sending(l: Link, buffer: Bytes): (r: (Link, SendResult))
    ensures r.1.Sent? ==> r.1.n <= |buffer| && r.0.accepted == l.accepted + buffer[..r.1.n]
    ensures !r.1.Sent? ==> r.0.accepted == l.accepted
    ensures r.1.Sent? || r.1.SendRetry? ==> |r.0.sends| < |l.sends|
    ensures r.0.open == l.open && r.0.delivered == l.delivered && r.0.receives == l.receives
  {
    if !l.open || buffer == [] then (l, SendError)
    else if l.sends == [] then (l, SendWouldBlock)
    else
      var l' := l.(sends := l.sends[1..]);
      match l.sends[0]
      case Accepts(k) =>
        var n := Min(k, |buffer|);
        (l'.(accepted := l.accepted + buffer[..n]), Sent(n))
      case SendBlocks => (l', SendWouldBlock)
      case SendInterrupted => (l', SendRetry)
      case SendFails => (l', SendError)
  }

  function Receiving(l: Link): (r: (Link, ReceiveResult))
    ensures r.1.Received? ==> r.0.delivered == l.delivered + r.1.bytes
    ensures !r.1.Received? ==> r.0.delivered == l.delivered
    ensures r.1.Received? || r.1.ReceiveRetry? ==> |r.0.receives| < |l.receives|
    ensures r.0.open == l.open && r.0.accepted == l.accepted && r.0.sends == l.sends
  {
    if !l.open then (l, ReceiveError)
    else if l.receives == [] then (l, ReceiveWouldBlock)
    else
      var l' := l.(receives := l.receives[1..]);
      match l.receives[0]
      case Delivers(bytes) => (l'.(delivered := l.delivered + bytes), Received(bytes))
      case ReceiveBlocks => (l', ReceiveWouldBlock)
      case ReceiveInterrupted => (l', ReceiveRetry)
      case ReceiveFails => (l', ReceiveError)
  }

  class Socket {
    var open: bool
    var sends: seq<SendOutcome>
    var receives: seq<ReceiveOutcome>
    ghost var accepted: Bytes
    ghost var delivered: Bytes

    ghost function View(): Link
      reads this
    {
      Link(open, sends, receives, accepted, delivered)
    }

    constructor (l: Link)
      ensures View() == l
    {
      open, sends, receives := l.open, l.sends, l.receives;
      accepted, delivered := l.accepted, l.delivered;
    }

    method Send(buffer: Bytes) returns (r: SendResult)
      modifies this
      ensures (View(), r) == Sending(old(View()), buffer)
    {
      if !open || buffer == [] {
        return SendError;
      }
      if sends == [] {
        return SendWouldBlock;
      }
      var outcome := sends[0];
      sends := sends[1..];
      match outcome {
        case Accepts(k) =>
          var n := Min(k, |buffer|);
          accepted := accepted + buffer[..n];
          r := Sent(n);
        case SendBlocks => r := SendWouldBlock;
        case SendInterrupted => r := SendRetry;
        case SendFails => r := SendError;
      }
    }

    method Receive() returns (r: ReceiveResult)
      modifies this
      ensures (View(), r) == Receiving(old(View()))
    {
      if !open {
        return ReceiveError;
      }
      if receives == [] {
        return ReceiveWouldBlock;
      }
      var outcome := receives[0];
      receives := receives[1..];
      match outcome {
        case Delivers(bytes) =>
          delivered := delivered + bytes;
          r := Received(bytes);
        case ReceiveBlocks => r := ReceiveWouldBlock;
        case ReceiveInterrupted => r := ReceiveRetry;
        case ReceiveFails => r := ReceiveError;
      }
    }

    /** Move assignment: this socket becomes the other, which is left closed. */
    method TakeOver(other: Socket)
      requires other != this
      modifies this, other
      ensures View() == old(other.View())
      ensures !other.open
    {
      open, sends, receives := other.open, other.sends, other.receives;
      accepted, delivered := other.accepted, other.delivered;
      other.open := false;
    }

    method Close()
      modifies this
      ensures View() == old(View()).(open := false)
    {
      open := false;
    }
  }
}
