/** The receive engine after the handshake: header, policy, data, reassembly. */
module Receiver {
  import opened Endian
  import opened Wire
  import opened Reassembly
  import Cipher = TransactionCipher

  /** One direction's crypto hooks: none, or a cipher direction under shared parameters. */
  datatype Hooks = NoHooks | Hooks(params: Cipher.Params, dir: Cipher.Dir) {
    ghost predicate Valid() {
      Hooks? ==> params.hash.Valid()
    }
  }

  datatype Stage = AwaitHandshake | AwaitHeader | AwaitData

  /** The receive state, with the history of the parts completed so far. */
  datatype Rx = Rx(stage: Stage, inbound: Bytes, header: Header, flag: byte, hooks: Hooks,
                   asm: Assembly, parts: seq<Message>)
  {
    ghost predicate Valid() {
      && hooks.Valid()
      && (stage == AwaitData ==> header.dataSize > 0)
    }
  }

  function HeaderIn(hooks: Hooks, raw: Bytes): (r: (Hooks, Bytes, byte))
    requires |raw| == HEADER_SIZE
    ensures |r.1| == HEADER_SIZE
    ensures hooks.Valid() ==> r.0.Valid()
  {
    match hooks
    case NoHooks => (hooks, raw, 0)
    case Hooks(params, dir) =>
      var (dir', plain) := Cipher.Passed(dir, raw);
      (Hooks(params, dir'), plain, plain[0])
  }

  function DataIn(hooks: Hooks, data: Bytes, flag: byte): (r: (Hooks, Bytes))
    requires hooks.Valid()
    ensures |r.1| == |data| && r.0.Valid()
  {
    match hooks
    case NoHooks => (hooks, data)
    case Hooks(params, dir) =>
      var (dir', plain) := Cipher.PassedData(params, dir, data, flag);
      (Hooks(params, dir'), plain)
  }

  /** The receive policy: a zero or oversized size kills the connection. */
  predicate Refusable(h: Header, max: u32) {
    h.totalSize == 0 || h.dataSize == 0 || h.totalSize > max || h.dataSize > max
  }

  function Completed(rx: Rx, data: Bytes): (r: Rx)
    requires rx.Valid()
    ensures r.Valid() == (r.stage == AwaitData ==> r.header.dataSize > 0)
    ensures r.stage == rx.stage && r.inbound == rx.inbound && r.header == rx.header
    ensures rx.asm.dispatched <= r.asm.dispatched
  {
    var (hooks, plain) := DataIn(rx.hooks, data, rx.flag);
    var part := Message(rx.header, plain);
    rx.(hooks := hooks, asm := Taken(rx.asm, part), parts := rx.parts + [part])
  }

  datatype Outcome = Wait | Next(rx: Rx) | Refused(rx: Rx)

  /** One pass of the parse loop past the handshake. */
  function Step(max: u32, rx: Rx): (r: Outcome)
    requires rx.Valid() && rx.stage != AwaitHandshake
    ensures r.Next? ==> r.rx.Valid() && r.rx.stage != AwaitHandshake && |r.rx.inbound| < |rx.inbound|
    ensures r.Next? ==> rx.asm.dispatched <= r.rx.asm.dispatched
    ensures r.Refused? ==> r.rx.Valid() && r.rx.stage == AwaitHeader && r.rx.asm == rx.asm
  {
    if rx.stage == AwaitHeader then
      if |rx.inbound| < HEADER_SIZE then Wait
      else
        var (hooks, plain, flag) := HeaderIn(rx.hooks, rx.inbound[..HEADER_SIZE]);
        var h := DecodedHeader(plain);
        var rx' := rx.(inbound := rx.inbound[HEADER_SIZE..], hooks := hooks, flag := flag, header := h);
        if Refusable(h, max) then Refused(rx') else Next(rx'.(stage := AwaitData))
    else
      var n := rx.header.dataSize;
      if |rx.inbound| < n then Wait
      else Next(Completed(rx.(inbound := rx.inbound[n..]), rx.inbound[..n]).(stage := AwaitHeader))
  }

  /**
   * The policy on the bytes of a plain header: refused exactly if the total size, bytes 12 to 15, or the
   * data size, bytes 16 to 19, is zero or over the limit; otherwise as many bytes are awaited as bytes
   * 16 to 19 say.
   */
  lemma PolicyOnBytes(max: u32, rx: Rx)
    requires rx.Valid() && rx.stage == AwaitHeader && rx.hooks == NoHooks && |rx.inbound| >= 20
    ensures var b, r := rx.inbound[..20], Step(max, rx);
            var total, size := BigEndian(b[12..16]), BigEndian(b[16..20]);
            && (r.Refused? <==> total == 0 || size == 0 || total > max || size > max)
            && (!r.Refused? ==>
                  && r.Next? && r.rx.stage == AwaitData && r.rx.inbound == rx.inbound[20..]
                  && r.rx.header.totalSize == total && r.rx.header.dataSize == size
                  && r.rx.header.isReply == b[1] && r.rx.header.id == BigEndian(b[4..8])
                  && r.rx.header.kind == BigEndian(b[2..4]) && r.rx.header.error == BigEndian(b[8..12]))
  {
    hide EncodedHeader, DecodedHeader, BigEndian;
    var b := rx.inbound[..20];
    HeaderBytesRoundTrip(b);
    HeaderBytes(DecodedHeader(b));
  }

  function Append(rx: Rx, more: Bytes): Rx {
    rx.(inbound := rx.inbound + more)
  }

  /** A step that can be taken is the same step whatever bytes follow. */
  lemma StepExtends(max: u32, rx: Rx, more: Bytes)
    requires rx.Valid() && rx.stage != AwaitHandshake
    ensures var r := Step(max, rx);
            && (r.Next? ==> Step(max, Append(rx, more)) == Next(Append(r.rx, more)))
            && (r.Refused? ==> Step(max, Append(rx, more)) == Refused(Append(r.rx, more)))
  {
    hide HeaderIn, DataIn, DecodedHeader, Taken, Refusable;
    var n := if rx.stage == AwaitHeader then HEADER_SIZE else rx.header.dataSize;
    if |rx.inbound| >= n {
      assert (rx.inbound + more)[..n] == rx.inbound[..n];
      assert (rx.inbound + more)[n..] == rx.inbound[n..] + more;
    }
  }
}
