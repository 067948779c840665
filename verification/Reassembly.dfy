/** Multi-part reassembly: parts are gathered by (is-reply, id) until the declared total is reached. */
module Reassembly {
  import opened Endian
  import opened Wire

  /** A header with its payload: one received part, a partial entry, or a dispatched transaction. */
  datatype Message = Message(header: Header, data: Bytes)

  type Key = (byte, u32)

  function KeyOf(m: Message): Key {
    (m.header.isReply, m.header.id)
  }

  /** The partial entries, and everything dispatched so far, oldest first. */
  datatype Assembly = Assembly(partial: map<Key, Message>, dispatched: seq<Message>)

  const NOTHING := Assembly(map[], [])

  function Gathered(partial: map<Key, Message>, part: Message): Message {
    var key := KeyOf(part);
    Message(part.header, (if key in partial then partial[key].data else []) + part.data)
  }

  function Taken(a: Assembly, part: Message): Assembly {
    if part.header.totalSize == part.header.dataSize then
      a.(dispatched := a.dispatched + [part])
    else
      var whole := Gathered(a.partial, part);
      if |whole.data| >= part.header.totalSize then
        Assembly(a.partial - {KeyOf(part)}, a.dispatched + [whole])
      else
        a.(partial := a.partial[KeyOf(part) := whole])
  }

  function TakenAll(a: Assembly, parts: seq<Message>): Assembly {
    if parts == [] then a else Taken(TakenAll(a, parts[..|parts| - 1]), parts[|parts| - 1])
  }

  lemma TakenAllStep(a: Assembly, parts: seq<Message>, part: Message)
    ensures TakenAll(a, parts + [part]) == Taken(TakenAll(a, parts), part)
  {
    hide Taken;
    assert (parts + [part])[..|parts|] == parts;
  }

  lemma {:induction false} TakenAllSplits(a: Assembly, p: seq<Message>, q: seq<Message>)
    ensures TakenAll(a, p + q) == TakenAll(TakenAll(a, p), q)
  {
    hide Taken;
    if q == [] {
      assert p + q == p;
    } else {
      assert (p + q)[..|p + q| - 1] == p + q[..|q| - 1];
      TakenAllSplits(a, p, q[..|q| - 1]);
    }
  }

  // ------------------------------------------------------------------
  // Size bounds
  // ------------------------------------------------------------------

  /** A part the receive policy lets through. */
  predicate Allowed(m: Message, max: u32) {
    && |m.data| == m.header.dataSize
    && 0 < m.header.dataSize <= max
    && 0 < m.header.totalSize <= max
  }

  ghost predicate Bounded(a: Assembly, max: u32) {
    && (forall k :: k in a.partial ==> a.partial[k].header.isReply == k.0 && a.partial[k].header.id == k.1)
    && (forall k :: k in a.partial ==> 0 < |a.partial[k].data| < a.partial[k].header.totalSize <= max)
    && (forall m :: m in a.dispatched ==> 0 < |m.data| <= 2 * max - 1)
  }

  lemma {:induction false} PartsStayBounded(max: u32, parts: seq<Message>)
    requires forall m :: m in parts ==> Allowed(m, max)
    ensures Bounded(TakenAll(NOTHING, parts), max)
  {
    if parts == [] {
    } else {
      PartsStayBounded(max, parts[..|parts| - 1]);
      assert Allowed(parts[|parts| - 1], max);
    }
  }

  /** The payload bound cannot be lowered: for every limit two allowed parts reach 2 max - 1 bytes. */
  lemma BoundIsReached(max: u32) returns (parts: seq<Message>)
    requires max >= 2
    ensures |parts| == 2 && forall m :: m in parts ==> Allowed(m, max)
    ensures |TakenAll(NOTHING, parts).dispatched| == 1
    ensures |TakenAll(NOTHING, parts).dispatched[0].data| == 2 * max - 1
  {
    var a := Message(NO_HEADER.(totalSize := max, dataSize := max - 1), Zeros(max - 1));
    var b := Message(NO_HEADER.(totalSize := 1, dataSize := max), Zeros(max));
    parts := [a, b];
    assert parts[..1] == [a] && [a][..0] == [];
    assert TakenAll(NOTHING, [a]) == Taken(NOTHING, a);
  }

  /** A part that carries an entry past the limit: one of several, and too large for what is held. */
  predicate Overruns(a: Assembly, part: Message, max: u32) {
    && part.header.totalSize != part.header.dataSize
    && (part.header.isReply, part.header.id) in a.partial
    && |a.partial[(part.header.isReply, part.header.id)].data| + part.header.dataSize > max
  }

  /** A part leads to a payload beyond the limit if and only if it overruns, which is seen before it is taken. */
  lemma OversizedIffOverruns(a: Assembly, part: Message, max: u32)
    requires Bounded(a, max) && Allowed(part, max)
    ensures var now := Taken(a, part).dispatched;
            Overruns(a, part, max) <==> |now| > |a.dispatched| && |now[|a.dispatched|].data| > max
  {
  }

  ghost predicate NoneOverruns(parts: seq<Message>, max: u32) {
    forall i :: 0 <= i < |parts| ==> !Overruns(TakenAll(NOTHING, parts[..i]), parts[i], max)
  }

  predicate WithinLimit(ms: seq<Message>, max: u32) {
    forall i :: 0 <= i < |ms| ==> |ms[i].data| <= max
  }

  /** All payloads dispatched are within the limit if and only if no part overran. */
  lemma {:induction false} AllWithinLimitIff(max: u32, parts: seq<Message>)
    requires forall m :: m in parts ==> Allowed(m, max)
    ensures WithinLimit(TakenAll(NOTHING, parts).dispatched, max) <==> NoneOverruns(parts, max)
  {
    hide Taken, Overruns, Bounded, Allowed;
    if parts == [] {
    } else {
      var front, last := parts[..|parts| - 1], parts[|parts| - 1];
      AllWithinLimitIff(max, front);
      PartsStayBounded(max, front);
      assert last in parts;
      var a := TakenAll(NOTHING, front);
      OversizedIffOverruns(a, last, max);
      TakenAddsOne(a, last);
      OverrunsFront(parts, max);
    }
  }

  lemma TakenAddsOne(a: Assembly, part: Message)
    ensures var now := Taken(a, part).dispatched;
            a.dispatched <= now && |now| <= |a.dispatched| + 1
  {
  }

  lemma OverrunsFront(parts: seq<Message>, max: u32)
    requires parts != []
    ensures var front, last := parts[..|parts| - 1], parts[|parts| - 1];
            NoneOverruns(parts, max) <==> NoneOverruns(front, max) && !Overruns(TakenAll(NOTHING, front), last, max)
  {
    hide Overruns, TakenAll;
    var front := parts[..|parts| - 1];
    assert forall i :: 0 <= i < |front| ==> front[..i] == parts[..i] && front[i] == parts[i];
  }

  // ------------------------------------------------------------------
  // Conservation
  // ------------------------------------------------------------------

  function Payloads(ms: seq<Message>): multiset<byte> {
    if ms == [] then multiset{} else Payloads(ms[..|ms| - 1]) + multiset(ms[|ms| - 1].data)
  }

  ghost function Held(partial: map<Key, Message>): multiset<byte> {
    if partial == map[] then multiset{}
    else
      var k :| k in partial;
      multiset(partial[k].data) + Held(partial - {k})
  }

  lemma HeldOpens(partial: map<Key, Message>) returns (j: Key)
    requires partial != map[]
    ensures j in partial && Held(partial) == multiset(partial[j].data) + Held(partial - {j})
  {
    j :| j in partial && Held(partial) == multiset(partial[j].data) + Held(partial - {j});
  }

  lemma {:induction false} HeldWithout(partial: map<Key, Message>, k: Key)
    requires k in partial
    ensures Held(partial) == multiset(partial[k].data) + Held(partial - {k})
    decreases |partial|
  {
    hide Held;
    var j := HeldOpens(partial);
    if j != k {
      HeldWithout(partial - {j}, k);
      HeldWithout(partial - {k}, j);
      assert partial - {j} - {k} == partial - {k} - {j};
    }
  }

  lemma PayloadsAppend(ms: seq<Message>, m: Message)
    ensures Payloads(ms + [m]) == Payloads(ms) + multiset(m.data)
  {
    assert (ms + [m])[..|ms|] == ms;
  }

  lemma HeldSplit(partial: map<Key, Message>, k: Key)
    ensures Held(partial) == Held(partial - {k}) + if k in partial then multiset(partial[k].data) else multiset{}
  {
    hide Held;
    if k in partial {
      HeldWithout(partial, k);
    } else {
      assert partial - {k} == partial;
    }
  }

  lemma TakeConserves(a: Assembly, part: Message)
    ensures var b := Taken(a, part);
            Payloads(b.dispatched) + Held(b.partial)
            == Payloads(a.dispatched) + Held(a.partial) + multiset(part.data)
  {
    hide Held, Payloads;
    var k := KeyOf(part);
    if part.header.totalSize == part.header.dataSize {
      PayloadsAppend(a.dispatched, part);
    } else {
      var whole := Gathered(a.partial, part);
      HeldSplit(a.partial, k);
      HeldSplit(a.partial[k := whole], k);
      assert a.partial[k := whole] - {k} == a.partial - {k};
      PayloadsAppend(a.dispatched, whole);
    }
  }

  /** No payload byte of any completed part is lost, repeated or made up: each is dispatched or held. */
  lemma {:induction false} BytesConserved(parts: seq<Message>)
    ensures var a := TakenAll(NOTHING, parts);
            Payloads(a.dispatched) + Held(a.partial) == Payloads(parts)
  {
    hide Taken;
    if parts == [] {
    } else {
      BytesConserved(parts[..|parts| - 1]);
      TakeConserves(TakenAll(NOTHING, parts[..|parts| - 1]), parts[|parts| - 1]);
    }
  }

  // ------------------------------------------------------------------
  // One key at a time
  // ------------------------------------------------------------------

  /** The messages with this is-reply byte and this id, of whatever kind and error, in order. */
  function OfKey(ms: seq<Message>, r: byte, id: u32): (mine: seq<Message>)
    ensures |mine| <= |ms|
    ensures forall m :: m in mine ==> m in ms && m.header.isReply == r && m.header.id == id
  {
    if ms == [] then []
    else
      var last := ms[|ms| - 1];
      OfKey(ms[..|ms| - 1], r, id) + if last.header.isReply == r && last.header.id == id then [last] else []
  }

  /** Two assemblies look the same through one key. */
  ghost predicate SameFor(r: byte, id: u32, a: Assembly, b: Assembly) {
    && ((r, id) in a.partial <==> (r, id) in b.partial)
    && ((r, id) in a.partial ==> a.partial[(r, id)] == b.partial[(r, id)])
    && OfKey(a.dispatched, r, id) == OfKey(b.dispatched, r, id)
  }

  lemma OfKeyAppend(ms: seq<Message>, m: Message, r: byte, id: u32)
    ensures OfKey(ms + [m], r, id) ==
            OfKey(ms, r, id) + if m.header.isReply == r && m.header.id == id then [m] else []
  {
    assert (ms + [m])[..|ms|] == ms;
  }

  lemma TakeSameKey(r: byte, id: u32, a: Assembly, b: Assembly, part: Message)
    requires SameFor(r, id, a, b) && part.header.isReply == r && part.header.id == id
    ensures SameFor(r, id, Taken(a, part), Taken(b, part))
  {
    hide OfKey;
    OfKeyAppend(a.dispatched, part, r, id);
    OfKeyAppend(b.dispatched, part, r, id);
    OfKeyAppend(a.dispatched, Gathered(a.partial, part), r, id);
    OfKeyAppend(b.dispatched, Gathered(b.partial, part), r, id);
  }

  lemma TakeOtherKey(r: byte, id: u32, a: Assembly, b: Assembly, part: Message)
    requires SameFor(r, id, a, b) && !(part.header.isReply == r && part.header.id == id)
    ensures SameFor(r, id, Taken(a, part), b)
  {
    hide OfKey;
    OfKeyAppend(a.dispatched, part, r, id);
    OfKeyAppend(a.dispatched, Gathered(a.partial, part), r, id);
  }

  /** What a key's traffic leads to depends on that key's parts alone, whatever it is interleaved with. */
  lemma {:induction false} KeysAreIndependent(r: byte, id: u32, a: Assembly, parts: seq<Message>)
    ensures SameFor(r, id, TakenAll(a, parts), TakenAll(a, OfKey(parts, r, id)))
  {
    hide Taken;
    if parts == [] {
    } else {
      var front, last := parts[..|parts| - 1], parts[|parts| - 1];
      KeysAreIndependent(r, id, a, front);
      if last.header.isReply == r && last.header.id == id {
        var mine := OfKey(parts, r, id);
        assert mine[..|mine| - 1] == OfKey(front, r, id) && mine[|mine| - 1] == last;
        TakeSameKey(r, id, TakenAll(a, front), TakenAll(a, OfKey(front, r, id)), last);
      } else {
        assert OfKey(parts, r, id) == OfKey(front, r, id);
        TakeOtherKey(r, id, TakenAll(a, front), TakenAll(a, OfKey(front, r, id)), last);
      }
    }
  }

  /** One more part: passed on whole, or joined to what waits, which is passed on when complete. */
  function AloneStep(held: Bytes, done: seq<Message>, part: Message): (Bytes, seq<Message>) {
    if part.header.totalSize == part.header.dataSize then (held, done + [part])
    else if |held + part.data| >= part.header.totalSize then ([], done + [Message(part.header, held + part.data)])
    else (held + part.data, done)
  }

  /** What the parts of one transaction leave waiting and what they dispatch, taken alone, without a table. */
  function Alone(mine: seq<Message>): (Bytes, seq<Message>) {
    if mine == [] then ([], [])
    else
      var (held, done) := Alone(mine[..|mine| - 1]);
      AloneStep(held, done, mine[|mine| - 1])
  }

  function EntryData(a: Assembly, r: byte, id: u32): Bytes {
    if (r, id) in a.partial then a.partial[(r, id)].data else []
  }

  /**
   * The table only keeps transactions apart: whatever the interleaving, totals, kinds and
   * errors, what an is-reply byte and an id hold and have dispatched is what their parts come to alone.
   */
  lemma {:induction false} TableKeepsApart(r: byte, id: u32, parts: seq<Message>)
    ensures var a := TakenAll(NOTHING, parts);
            var (held, done) := Alone(OfKey(parts, r, id));
            EntryData(a, r, id) == held && OfKey(a.dispatched, r, id) == done
  {
    hide Taken, OfKey, Alone;
    if parts == [] {
      assert OfKey([], r, id) == [] && Alone([]) == ([], []) by { NothingAlone(r, id); }
    } else {
      var front, last := parts[..|parts| - 1], parts[|parts| - 1];
      TableKeepsApart(r, id, front);
      TakeApart(r, id, TakenAll(NOTHING, front), last);
      assert parts == front + [last];
      OfKeyAppend(front, last, r, id);
      if last.header.isReply == r && last.header.id == id {
        AloneAppend(OfKey(front, r, id), last);
      } else {
        assert OfKey(front, r, id) + [] == OfKey(front, r, id);
      }
    }
  }

  lemma NothingAlone(r: byte, id: u32)
    ensures OfKey([], r, id) == [] && Alone([]) == ([], [])
  {
  }

  lemma AloneAppend(mine: seq<Message>, part: Message)
    ensures Alone(mine + [part]) == AloneStep(Alone(mine).0, Alone(mine).1, part)
  {
    assert (mine + [part])[..|mine|] == mine;
  }

  lemma TakeApart(r: byte, id: u32, a: Assembly, part: Message)
    ensures var b := Taken(a, part);
            var after := if part.header.isReply == r && part.header.id == id then
                           AloneStep(EntryData(a, r, id), OfKey(a.dispatched, r, id), part)
                         else (EntryData(a, r, id), OfKey(a.dispatched, r, id));
            EntryData(b, r, id) == after.0 && OfKey(b.dispatched, r, id) == after.1
  {
    hide OfKey;
    OfKeyAppend(a.dispatched, part, r, id);
    OfKeyAppend(a.dispatched, Gathered(a.partial, part), r, id);
    assert OfKey(a.dispatched, r, id) + [] == OfKey(a.dispatched, r, id);
  }

  // ------------------------------------------------------------------
  // A payload in several parts
  // ------------------------------------------------------------------

  function Joined(parts: seq<Message>): Bytes {
    if parts == [] then [] else Joined(parts[..|parts| - 1]) + parts[|parts| - 1].data
  }

  /** At least two non-empty parts of one key that make up `whole` and all declare its size. */
  ghost predicate SplitInto(r: byte, id: u32, whole: Bytes, parts: seq<Message>) {
    && |parts| >= 2
    && Joined(parts) == whole
    && forall m :: m in parts ==>
         && m.header.isReply == r && m.header.id == id
         && m.header.totalSize == |whole| && m.header.dataSize == |m.data| > 0
  }

  lemma {:induction false} JoinedGrows(parts: seq<Message>, n: nat)
    requires forall m :: m in parts ==> |m.data| > 0
    requires n <= |parts|
    ensures |Joined(parts[..n])| + (|parts| - n) <= |Joined(parts)|
  {
    if n == |parts| {
      assert parts[..n] == parts;
    } else {
      assert parts[|parts| - 1] in parts;
      assert parts[..|parts| - 1][..n] == parts[..n];
      JoinedGrows(parts[..|parts| - 1], n);
    }
  }

  lemma PartIsSmaller(parts: seq<Message>, i: nat)
    requires |parts| >= 2 && i < |parts|
    requires forall m :: m in parts ==> |m.data| > 0
    ensures |parts[i].data| < |Joined(parts)|
  {
    hide Joined;
    assert parts[..i + 1][..i] == parts[..i];
    assert Joined(parts[..i + 1]) == Joined(parts[..i]) + parts[i].data by { JoinedStep(parts, i); }
    JoinedGrows(parts, i + 1);
    JoinedGrows(parts[..i], 0);
  }

  lemma JoinedStep(parts: seq<Message>, i: nat)
    requires i < |parts|
    ensures Joined(parts[..i + 1]) == Joined(parts[..i]) + parts[i].data
  {
    assert parts[..i + 1][..i] == parts[..i];
  }

  lemma {:induction false} PartsGather(r: byte, id: u32, whole: Bytes, parts: seq<Message>, a: Assembly, n: nat)
    requires SplitInto(r, id, whole, parts) && (r, id) !in a.partial && n <= |parts|
    ensures var b := TakenAll(a, parts[..n]);
            if n < |parts| then
              && b.dispatched == a.dispatched
              && (n == 0 ==> (r, id) !in b.partial)
              && (n > 0 ==> (r, id) in b.partial && b.partial[(r, id)].data == Joined(parts[..n]))
            else
              b.dispatched == a.dispatched + [Message(parts[n - 1].header, whole)] && (r, id) !in b.partial
  {
    if n == 0 {
    } else {
      PartsGather(r, id, whole, parts, a, n - 1);
      JoinedGrows(parts, n);
      JoinedStep(parts, n - 1);
      PartIsSmaller(parts, n - 1);
      assert parts[..n][..n - 1] == parts[..n - 1];
      assert parts[n - 1] in parts;
      assert parts[..|parts|] == parts;
    }
  }

  /**
   * A payload split into two or more parts under a key with nothing pending, interleaved with any
   * traffic of other keys: one dispatch for the key, at its last part, of the whole payload under
   * the last part's header, and none before.
   */
  lemma SplitPayloadDispatchedOnce(r: byte, id: u32, whole: Bytes, a: Assembly, stream: seq<Message>, n: nat)
    requires SplitInto(r, id, whole, OfKey(stream, r, id)) && (r, id) !in a.partial && n <= |stream|
    ensures var parts := OfKey(stream, r, id);
            var seen := OfKey(stream[..n], r, id);
            OfKey(TakenAll(a, stream[..n]).dispatched, r, id)
            == OfKey(a.dispatched, r, id)
             + if |seen| == |parts| then [Message(parts[|parts| - 1].header, whole)] else []
  {
    hide TakenAll, OfKey, Joined;
    var parts := OfKey(stream, r, id);
    OfKeyPrefix(stream, n, r, id);
    var seen := OfKey(stream[..n], r, id);
    KeysAreIndependent(r, id, a, stream[..n]);
    PartsGather(r, id, whole, parts, a, |seen|);
    if |seen| == |parts| {
      assert parts[|parts| - 1] in parts;
      OfKeyAppend(a.dispatched, Message(parts[|parts| - 1].header, whole), r, id);
    }
  }

  lemma {:induction false} OfKeyPrefix(ms: seq<Message>, n: nat, r: byte, id: u32)
    requires n <= |ms|
    ensures |OfKey(ms[..n], r, id)| <= |OfKey(ms, r, id)|
    ensures OfKey(ms[..n], r, id) == OfKey(ms, r, id)[..|OfKey(ms[..n], r, id)|]
  {
    if n == |ms| {
      assert ms[..n] == ms;
    } else {
      OfKeyPrefix(ms[..|ms| - 1], n, r, id);
      assert ms[..|ms| - 1][..n] == ms[..n];
    }
  }
}
