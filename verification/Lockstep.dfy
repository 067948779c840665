/** Two peers over one password and session key: what any run of pipelined messages keeps. */
module Lockstep {
  import opened Endian
  import opened Hmac
  import opened TransactionCipher
  import KeyExpansion
  import Ofb

  /** A direction run over messages in order, each under the flag in its header's first byte. */
  function SealedAll(p: Params, d: Dir, ms: seq<Packet>): (r: (Dir, seq<Packet>))
    requires p.hash.Valid()
    ensures |r.1| == |ms|
  {
    if ms == [] then (d, [])
    else
      var last := |ms| - 1;
      var (d1, sent) := SealedAll(p, d, ms[..last]);
      var (d2, coded) := Sealed(p, d1, ms[last], ms[last].header[0]);
      (d2, sent + [coded])
  }

  /** What was sent first does not depend on what is sent later. */
  lemma {:induction false} SealedPrefix(p: Params, d: Dir, ms: seq<Packet>, k: nat)
    requires p.hash.Valid() && k < |ms|
    ensures var (d1, _) := SealedAll(p, d, ms[..k]);
            SealedAll(p, d, ms).1[k] == Sealed(p, d1, ms[k], ms[k].header[0]).1
    ensures SealedAll(p, d, ms[..k + 1]).0
         == Sealed(p, SealedAll(p, d, ms[..k]).0, ms[k], ms[k].header[0]).0
  {
    hide Sealed;
    assert ms[..k + 1][..k] == ms[..k];
    if k == |ms| - 1 {
    } else {
      SealedPrefix(p, d, ms[..|ms| - 1], k);
      assert ms[..|ms| - 1][..k] == ms[..k];
    }
  }

  // ------------------------------------------------------------------
  // The key after a run
  // ------------------------------------------------------------------

  function FlagSum(ms: seq<Packet>): nat {
    if ms == [] then 0
    else
      var last := ms[|ms| - 1];
      FlagSum(ms[..|ms| - 1]) + if last.data == [] then 0 else last.header[0]
  }

  ghost predicate Keyed(p: Params, d: Dir, key: Bytes, rounds: nat)
    requires p.hash.Valid() && |key| == p.hash.digestSize
  {
    && d.key == Permuted(p.hash, key, p.session, rounds)
    && d.schedule == KeyExpansion.Expanded(p.pi, d.key)
  }

  lemma SealKeepsKeyed(p: Params, d: Dir, key: Bytes, rounds: nat, m: Packet)
    requires p.hash.Valid() && |key| == p.hash.digestSize && Keyed(p, d, key, rounds)
    ensures Keyed(p, Sealed(p, d, m, m.header[0]).0, key, rounds + if m.data == [] then 0 else m.header[0])
  {
    hide KeyExpansion.Expanded, Permuted, Ofb.Advanced, Ofb.Processed;
    PermuteTwice(p.hash, key, p.session, rounds, m.header[0]);
  }

  /** The key in force is the first key permuted by the sum of the flags of all non-empty messages. */
  lemma {:induction false} KeyAfterRun(p: Params, key: Bytes, ms: seq<Packet>)
    requires p.hash.Valid() && |key| == p.hash.digestSize
    ensures Keyed(p, SealedAll(p, Opened(p, key), ms).0, key, FlagSum(ms))
  {
    if ms == [] {
      PermuteNone(p.hash, key, p.session);
    } else {
      hide Keyed, Sealed, Opened;
      KeyAfterRun(p, key, ms[..|ms| - 1]);
      SealKeepsKeyed(p, SealedAll(p, Opened(p, key), ms[..|ms| - 1]).0, key, FlagSum(ms[..|ms| - 1]), ms[|ms| - 1]);
    }
  }

  lemma PermuteNone(h: Hash, key: Bytes, session: Bytes)
    requires h.Valid()
    ensures Permuted(h, key, session, 0) == key
  {
  }

  // ------------------------------------------------------------------
  // A system of two peers
  // ------------------------------------------------------------------

  datatype Peer = Peer(encode: Dir, decode: Dir, sent: seq<Packet>, received: seq<Packet>)

  /** Both peers and the coded messages in flight each way, oldest first. */
  datatype Pair = Pair(client: Peer, server: Peer, toServer: seq<Packet>, toClient: seq<Packet>)

  datatype Step =
    | ClientSends(m: Packet)
    | ServerSends(m: Packet)
    | ClientReceives
    | ServerReceives

  function Started(p: Params, keys: LoginKeys): Pair
    requires |keys.first| > 0 && |keys.second| > 0
  {
    Pair(Peer(Opened(p, keys.second), Opened(p, keys.first), [], []),
         Peer(Opened(p, keys.first), Opened(p, keys.second), [], []), [], [])
  }

  function Sending(p: Params, peer: Peer, m: Packet): (r: (Peer, Packet))
    requires p.hash.Valid()
  {
    var (d, coded) := Sealed(p, peer.encode, m, m.header[0]);
    (peer.(encode := d, sent := peer.sent + [m]), coded)
  }

  function Receiving(p: Params, peer: Peer, coded: Packet): Peer
    requires p.hash.Valid()
  {
    var (d, m) := Unsealed(p, peer.decode, coded);
    peer.(decode := d, received := peer.received + [m])
  }

  function Next(p: Params, s: Pair, step: Step): Pair
    requires p.hash.Valid()
  {
    match step
    case ClientSends(m) =>
      var (peer, coded) := Sending(p, s.client, m);
      s.(client := peer, toServer := s.toServer + [coded])
    case ServerSends(m) =>
      var (peer, coded) := Sending(p, s.server, m);
      s.(server := peer, toClient := s.toClient + [coded])
    case ClientReceives =>
      if s.toClient == [] then s
      else s.(client := Receiving(p, s.client, s.toClient[0]), toClient := s.toClient[1..])
    case ServerReceives =>
      if s.toServer == [] then s
      else s.(server := Receiving(p, s.server, s.toServer[0]), toServer := s.toServer[1..])
  }

  function Run(p: Params, s: Pair, steps: seq<Step>): Pair
    requires p.hash.Valid()
  {
    if steps == [] then s else Next(p, Run(p, s, steps[..|steps| - 1]), steps[|steps| - 1])
  }

  /**
   * One direction in lockstep: what arrived is the front of what was sent, the rest is in flight
   * as it was coded, and the decoder stands where the encoder stood after as many messages.
   */
  ghost predicate InStep(p: Params, start: Dir, encode: Dir, decode: Dir,
                         sent: seq<Packet>, flight: seq<Packet>, received: seq<Packet>)
    requires p.hash.Valid()
  {
    && |received| + |flight| == |sent|
    && received == sent[..|received|]
    && flight == SealedAll(p, start, sent).1[|received|..]
    && encode == SealedAll(p, start, sent).0
    && decode == SealedAll(p, start, received).0
  }

  lemma SendKeepsStep(p: Params, start: Dir, encode: Dir, decode: Dir,
                      sent: seq<Packet>, flight: seq<Packet>, received: seq<Packet>, m: Packet)
    requires p.hash.Valid() && InStep(p, start, encode, decode, sent, flight, received)
    ensures var (d, coded) := Sealed(p, encode, m, m.header[0]);
            InStep(p, start, d, decode, sent + [m], flight + [coded], received)
  {
    hide Sealed;
    assert (sent + [m])[..|sent|] == sent;
  }

  lemma ReceiveKeepsStep(p: Params, start: Dir, encode: Dir, decode: Dir,
                         sent: seq<Packet>, flight: seq<Packet>, received: seq<Packet>)
    requires p.hash.Valid() && InStep(p, start, encode, decode, sent, flight, received)
    requires flight != []
    ensures var (d, m) := Unsealed(p, decode, flight[0]);
            && m == sent[|received|]
            && InStep(p, start, encode, d, sent, flight[1..], received + [m])
  {
    hide Sealed, Unsealed, SealedAll;
    var k := |received|;
    SealedPrefix(p, start, sent, k);
    UnsealUndoesSeal(p, decode, sent[k]);
    assert sent[..k + 1] == received + [sent[k]];
  }

  ghost predicate PairInStep(p: Params, keys: LoginKeys, s: Pair)
    requires p.hash.Valid() && |keys.first| > 0 && |keys.second| > 0
  {
    && InStep(p, Opened(p, keys.second), s.client.encode, s.server.decode, s.client.sent, s.toServer, s.server.received)
    && InStep(p, Opened(p, keys.first), s.server.encode, s.client.decode, s.server.sent, s.toClient, s.client.received)
  }

  /** Every run, whatever is in flight and however the two directions interleave, stays in lockstep. */
  lemma {:induction false} RunStaysInStep(p: Params, keys: LoginKeys, steps: seq<Step>)
    requires p.hash.Valid() && |keys.first| > 0 && |keys.second| > 0
    ensures PairInStep(p, keys, Run(p, Started(p, keys), steps))
  {
    hide Sealed, Unsealed, InStep, Opened;
    if steps == [] {
      NothingInStep(p, Opened(p, keys.second));
      NothingInStep(p, Opened(p, keys.first));
    } else {
      var s := Run(p, Started(p, keys), steps[..|steps| - 1]);
      RunStaysInStep(p, keys, steps[..|steps| - 1]);
      var c, v := s.client, s.server;
      var a, b := Opened(p, keys.second), Opened(p, keys.first);
      match steps[|steps| - 1] {
        case ClientSends(m) =>
          SendKeepsStep(p, a, c.encode, v.decode, c.sent, s.toServer, v.received, m);
        case ServerSends(m) =>
          SendKeepsStep(p, b, v.encode, c.decode, v.sent, s.toClient, c.received, m);
        case ClientReceives =>
          if s.toClient != [] {
            ReceiveKeepsStep(p, b, v.encode, c.decode, v.sent, s.toClient, c.received);
          }
        case ServerReceives =>
          if s.toServer != [] {
            ReceiveKeepsStep(p, a, c.encode, v.decode, c.sent, s.toServer, v.received);
          }
      }
    }
  }

  lemma NothingInStep(p: Params, d: Dir)
    requires p.hash.Valid()
    ensures InStep(p, d, d, d, [], [], [])
  {
  }

  /**
   * The cipher over whole runs from one login: each peer has received exactly the front of what the
   * other sent, and its decoder (key, schedule and stream) equals the other's encoder as it stood
   * after as many messages, the key being the login key permuted by the sum of their flags.
   */
  lemma LoginRun(p: Params, password: Bytes, steps: seq<Step>)
    requires p.hash.Valid()
    ensures var keys := Derived(p.hash, password, p.session);
            && |keys.first| > 0 && |keys.second| > 0
            && var s := Run(p, Started(p, keys), steps);
            && s.server.received <= s.client.sent
            && s.client.received <= s.server.sent
            && s.server.decode == SealedAll(p, Opened(p, keys.second), s.server.received).0
            && s.client.decode == SealedAll(p, Opened(p, keys.first), s.client.received).0
            && s.client.encode == SealedAll(p, Opened(p, keys.second), s.client.sent).0
            && s.server.encode == SealedAll(p, Opened(p, keys.first), s.server.sent).0
            && Keyed(p, s.server.decode, keys.second, FlagSum(s.server.received))
            && Keyed(p, s.client.decode, keys.first, FlagSum(s.client.received))
  {
    hide Sealed, Unsealed, Opened, SealedAll, Run, Keyed;
    var keys := Derived(p.hash, password, p.session);
    RunStaysInStep(p, keys, steps);
    var s := Run(p, Started(p, keys), steps);
    KeyAfterRun(p, keys.second, s.server.received);
    KeyAfterRun(p, keys.first, s.client.received);
  }
}
