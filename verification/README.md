# Hotline: connection, cipher and codecs

This project models the transaction layer of the Hotline client and server, the encrypted-transaction
cipher under it, and the text, wire and file codecs beside it, and proves properties of them for all
inputs and all runs.

**The connection.** `Connection` gives every operation of a connection as a function of its state: the
receive stages (handshake, header, data), the receive policy, reassembly by `(is_reply, id)`, the send
queue with partial writes, and the lifecycle. The socket is an arbitrary script of outcomes: accept some
bytes, would block, interrupted, fail. `ConnectionObject` is the object itself, with its buffers, map,
queue and crypto hooks updated in place; each of its methods is proved to compute the function.
`Reassembly`, `Receiver`, `Fragmentation`, `Lifecycle`, `Runs`, `Handshakes`, `Rejection`, `Streams`,
`Delivery` and `Network` prove what the connection promises, up to end-to-end delivery between a client and
a server.

**The cipher.** `Blowfish`, `KeyExpansion`, `Ofb` and `BlowfishCipher` model the block cipher and its
output-feedback stream; `Hmac` the keyed hash and the key schedule over an arbitrary hash; `Md5`, `Sha1`,
`BitLogic`, `Padding` and `Digests` the two hashes; `TransactionCipher` the re-keying cipher of one peer, and
`Lockstep` two peers over whole runs.

**The codecs.** `Codec` and `Layouts` say what a lawful layout is (what is written is read back whatever
follows, only what could have been written is read, and a cut is truncation) and prove it for
combinators: pairs, counted lists, sized blobs, blocks that must be filled exactly, reserved bytes,
padded names. The concrete formats are built from these: `FieldList`, `FolderItems`, `FlatFiles`,
`ResumeRecords`, `InfoForks`, `ServerLists`, `Tracker`, `TrackerHandshake`, `Archives` with
`ArchiveReader`, and, on its own, `IvarArray`. For each, the encoder and decoder loops are methods proved
against the layout. `Text`, `Address`, `AddressLaws`, `AddressGrammar` and `AddressTexts`
do the same for IP address text.

`dafny verify dfyconfig.toml` checks the whole project.

## Findings

- `Streams.ArrivesIffFits`: the size of a queued payload is cast to 32 bits, so a payload of 2^32 bytes
  or more is announced modulo 2^32; a request arrives as sent exactly when it is non-empty and within
  the limit of the receiver. An empty payload is refused by the receive policy.
- `Runs.OnlyStartRevives`: `start` assigns the state without looking at it, so a dead connection of
  either role stays dead under a call exactly when the call is not `start`.
- `Runs.PayloadsWithinLimitIff`: a reassembled payload can exceed the receive limit M, because the last
  part is appended whole. All dispatched payloads of a run are within M exactly when no completed part
  overran: a part of several whose key has an entry, where the bytes held there and its own exceed M.
  They never exceed 2M - 1, and `Streams.BoundIsReachedOnTheWire` gives the plain bytes of two parts
  that reach it.
- `FlatFiles.DecodeUndoesEncode`, `ResumeRecords.DecodeUndoesEncode`, `Tracker.DecodeUndoesEncode`: the
  encoders accept forks of 2^32 bytes or more, versions other than 1, and types other than add and
  remove; the round trip holds exactly without those.
- `IvarArray.AcceptsWellFormed`: a comment in the decoder calls the offsets strictly monotonic; the check
  lets equal offsets pass, so an item may be empty, and the model follows the check.
- `AddressLaws.TextRoundTrip`: an IPv6 scope id is not printed, so the round trip holds exactly when
  it is 0.

## Model

| member | source | states |
|---|---|---|
| Network.TransactionsAreDelivered | src/hotline/net/src/connection.cpp:52-250 | For every setup, plain or encrypted, and every finite run of lawful calls on a connected client and server, with any partial writes, read fragmentation, socket failures and interleaving: what each end has dispatched always carries a front of the requests made of the other end before the first whose payload does not fit its limit, the same kind, id, is-reply, error, sizes, flag and bytes in the same order; and all requests, which then all fit, once a live end was handed every byte the other queued; events fire in order on both |
| Network.UnfitRequestEndsDelivery | src/hotline/net/src/connection.cpp:157-166 | When in any run a read kills an established end whose socket does not fail, what that end has dispatched carries exactly the requests before the first that does not fit, field for field, and there is one: a refusal is always of a request that does not fit |
| Network.AlwaysInTune | src/hotline/net/src/connection.cpp:94-250 | In every such run both ends stay in tune: bytes queued by one are its handshake and the coded requests in order, and the other holds exactly the receive state those bytes lead to |
| Network.MoveKeepsTune | src/hotline/net/src/connection.cpp:52-140 | Any lawful call on one end, whatever its socket does during it, keeps both directions in tune |
| Network.ReadMoves | src/hotline/net/src/connection.cpp:94-116 | Reading keeps both directions in tune, including when the read completes the handshake and sends the reply |
| Network.QueueMoves | src/hotline/net/src/connection.cpp:52-82 | Queueing a request, by a client at any time and by a server once its handshake step ran or when it is dead, keeps both directions in tune and extends what this end is to have said by exactly that request |
| Network.OpenedInTune | src/hotline/client/src/connection.cpp:29-43 | A client that has started against a server that has started is in tune from the first byte |
| Network.NextInTune | src/hotline/net/src/connection.cpp:94-250 | One move of either end keeps the whole network in tune |
| Network.LoginCodesWith | src/hotline/protocol/include/hotline/protocol/transaction_cipher.h:42-50 | The client of a login codes with the session key permuted three times under the password and the server with it permuted twice, each under the expansion of that key and from the start of a stream |
| Network.ClientOpens | src/hotline/client/src/connection.cpp:29-43 | Starting a client queues exactly the 12-byte client handshake and leaves it awaiting the reply, or dead if the socket failed |
| Network.ServerOpens | src/hotline/server/src/connection.cpp:28-31 | Starting a server queues nothing and leaves it awaiting the handshake |
| Delivery.HearsFirst | src/hotline/net/src/connection.cpp:125-190 | Parsing the first bytes heard gives the receive state that handshake and coded requests lead to, queues the reply on a server, and runs the handshake step once |
| Delivery.HearsMore | src/hotline/net/src/connection.cpp:142-190 | Parsing bytes that arrive behind those already parsed gives the receive state of all of them together and queues nothing; if it kills the connection, exactly the requests before the first that does not fit have been dispatched |
| Delivery.AbsorbedFront | src/hotline/net/src/connection.cpp:125-190 | However far a speech of handshake and requests was heard: what was dispatched is a front of the requests before the first that does not fit, all of them once their bytes were heard, and a refusal follows exactly when the header of that first one was heard |
| Delivery.AbsorbedMore | src/hotline/net/src/connection.cpp:142-190 | What a receiver makes of a longer speech is what it makes of the additional bytes from where the shorter one left it |
| Delivery.ReadingHears | src/hotline/net/src/connection.cpp:94-116 | A read call keeps an end in tune with what the other has said, however much or little of it the socket hands over |
| Delivery.AllHeard | src/hotline/net/src/connection.cpp:175-207 | A live end that was handed the bytes of every request before the first that does not fit has dispatched exactly these; handed all the other said, it has every request, in order and unchanged, and all fit |
| Delivery.ParseSwallows | src/hotline/net/src/connection.cpp:125-190 | After the handshake the parse loop is the receive engine run to its end, and its refusal is exactly the death of the connection |
| Delivery.ShakeWelcomes | src/hotline/server/src/connection.cpp:41-79 | An acceptable handshake establishes the connection or kills it in sending the reply; a server queues exactly the accepting reply and a client nothing |
| Delivery.ParseFromHandshake | src/hotline/net/src/connection.cpp:131-140 | From the handshake stage on, a buffer that begins with an acceptable handshake is handshake, then receive engine; a shorter buffer is left alone |
| Delivery.RequestExtendsSpeech | src/hotline/net/src/connection.cpp:52-82 | A queued transaction appends exactly its coded bytes to what the end has said and leaves the receive side untouched |
| Streams.TransactionArrives | src/hotline/net/src/connection.cpp:142-207 | From a clean state the bytes of one request within the limit are received as exactly that request, field for field, leaving a clean state with both ciphers in step |
| Streams.ArrivesIffFits | src/hotline/net/src/connection.cpp:60-61 | One transaction that carries the request field for field is received, without refusal, if and only if the request is non-empty and at most the receive limit of the other end: the size is cast to 32 bits, so a larger one is announced modulo 2^32 |
| Streams.StreamArrives | src/hotline/net/src/connection.cpp:142-207 | A whole stream of such requests is received whole and in order |
| Streams.StreamFrontArrives | src/hotline/net/src/connection.cpp:142-207 | Any front of such a stream, cut at any byte, is received without refusal as a front of the requests |
| Streams.FrontArrives | src/hotline/net/src/connection.cpp:142-207 | Any front of any stream of requests, fitting or not: a front of the requests before the first that does not fit is received, all of them once their bytes are there, and a refusal comes exactly with the header of that first one |
| Streams.UnfitIsRefused | src/hotline/net/src/connection.cpp:157-166 | The header alone of a request that is empty or over the limit is refused, whatever follows it, and nothing is dispatched for it |
| Streams.PartsAreTaken | src/hotline/net/src/connection.cpp:142-223 | A plain byte stream of any parts the policy allows leads to exactly what reassembly makes of these parts in turn |
| Streams.BoundIsReachedOnTheWire | src/hotline/net/src/connection.cpp:142-223 | For every limit M of at least 2 there are two headers with payloads whose plain bytes a new receiver dispatches as one payload of 2M - 1 bytes |
| Streams.SwallowSplits | src/hotline/net/src/connection.cpp:142-190 | Running the receive engine on a buffer and then on what follows is running it on both together, and a refusal stands whatever follows |
| Streams.HeaderSurvives | src/hotline/net/src/connection.cpp:66-74 | A coded header and payload decode to the header and payload that were encoded, under the same flag, and leave the decoder where the encoder is |
| Streams.ExpectedCarries | src/hotline/net/src/connection.cpp:55-61 | The transaction a request is announced as carries its kind, id, is-reply, error, size, flag and bytes if and only if the size is below 2^32 |
| Fragmentation.CutsDoNotMatter | src/hotline/net/src/connection.cpp:94-116 | However a byte stream is cut into reads that end in would_block, the state, events, partial entries and sent bytes equal those of one single read; and unless dead so do stage, pending header and leftover bytes |
| Fragmentation.ParseSplits | src/hotline/net/src/connection.cpp:125-190 | Parsing a buffer and then the bytes behind it is parsing both at once; a connection killed by the first keeps the rest unread and is otherwise the same |
| Fragmentation.AnotherBurst | src/hotline/net/src/connection.cpp:94-116 | One more read after any read agrees with one longer read |
| Fragmentation.DrainDelivers | src/hotline/net/src/connection.cpp:99-114 | A read loop that ends in would_block appends exactly the bytes the socket handed over |
| Fragmentation.QuietRead | src/hotline/net/src/connection.cpp:94-116 | Such a read is the parse of the old buffer followed by those bytes |
| Fragmentation.ShakeIgnoresRest | src/hotline/net/src/connection.cpp:131-140 | The handshake step looks at its own bytes only |
| Fragmentation.FlushIgnoresInbound | src/hotline/net/src/connection.cpp:226-250 | Sending neither looks at nor changes the inbound buffer |
| Receiver.StepExtends | src/hotline/net/src/connection.cpp:142-187 | A header or data step that can be taken is the same step whatever bytes follow |
| Receiver.PolicyOnBytes | src/hotline/net/src/connection.cpp:142-173 | A plain header of 20 bytes is refused if and only if the number in bytes 12 to 15 or that in bytes 16 to 19 is zero or over the limit; otherwise the fields are the numbers at their places and as many bytes are awaited as bytes 16 to 19 say |
| Reassembly.SplitPayloadDispatchedOnce | src/hotline/net/src/connection.cpp:209-223 | A payload split into two or more non-empty parts with one is-reply byte and one id, of any kinds and errors, with nothing pending for the two, and interleaved with any parts that differ in either, is dispatched for the two exactly once, at its last part, whole, under the header of the last part, and never before |
| Reassembly.KeysAreIndependent | src/hotline/net/src/connection.cpp:209-223 | What is dispatched and held for an is-reply byte and an id depends on the parts with exactly that byte and id alone |
| Reassembly.TableKeepsApart | src/hotline/net/src/connection.cpp:192-224 | For every stream of parts, every is-reply byte and every id: the bytes held and the transactions dispatched for the two are what a single buffer without a table makes of the parts with both, whatever their totals, kinds and errors |
| Reassembly.TakeOtherKey | src/hotline/net/src/connection.cpp:209-223 | A part that differs in is-reply byte or id leaves the entry and the dispatches of the two untouched |
| Reassembly.PartsStayBounded | src/hotline/net/src/connection.cpp:157-187 | With every part let through by the receive policy, each partial entry holds fewer bytes than its declared total, itself at most the limit M, and each dispatched payload is at most 2M - 1 bytes |
| Reassembly.BoundIsReached | src/hotline/net/src/connection.cpp:209-223 | The bound 2M - 1 is reached by two allowed parts for every M of at least 2, so it cannot be lowered |
| Reassembly.OversizedIffOverruns | src/hotline/net/src/connection.cpp:199-215 | Taking an allowed part dispatches a payload over the limit if and only if the part is one of several, its is-reply byte and id have an entry, and the bytes held there with its own are over the limit |
| Reassembly.AllWithinLimitIff | src/hotline/net/src/connection.cpp:199-223 | All payloads dispatched from a stream of allowed parts are within the limit if and only if no part met that condition when it was taken |
| Reassembly.BytesConserved | src/hotline/net/src/connection.cpp:199-223 | The bytes of all completed parts are, as a multiset, those dispatched plus those held: none lost, repeated or made up |
| Reassembly.TakeConserves | src/hotline/net/src/connection.cpp:199-223 | One completed part keeps that account |
| Reassembly.PartsGather | src/hotline/net/src/connection.cpp:209-223 | While parts of one payload arrive the entry holds exactly their concatenation so far |
| Reassembly.TakenAllSplits | src/hotline/net/src/connection.cpp:192-224 | Taking parts is compositional in the stream of parts |
| Runs.EventsInOrder | src/hotline/net/src/connection.cpp:41-50 | In every run from creation: on_established fires at most once and first, transactions only after it and exactly those dispatched, on_closed at most once, last, and exactly on death; the handshake step runs at most once |
| Runs.StatesMoveForward | src/hotline/net/include/hotline/net/connection.h:53-60 | In every run the state only moves forward along idle, awaiting, established or closing, dead; once dead there is no further event and no further byte sent |
| Runs.OnlyStartRevives | src/hotline/server/src/connection.cpp:28-31 | A dead connection of either role stays dead under a call if and only if the call is not start, which assigns the state without looking at it; a client also needs a socket that takes its handshake |
| Runs.FlushLives | src/hotline/net/src/connection.cpp:226-250 | Sending on a socket that does not fail leaves the state as it is, unless it is closing |
| Runs.SizesBoundedAndConserved | src/hotline/net/src/connection.cpp:157-223 | In every run partial entries and dispatched payloads stay within the size bounds and every completed byte is dispatched or held |
| Runs.PayloadsWithinLimitIff | src/hotline/net/src/connection.cpp:157-223 | In every run, all payloads dispatched are within the receive limit if and only if no completed part carried its entry past it |
| Runs.SplitPayloadArrives | src/hotline/net/src/connection.cpp:192-224 | In every run and from any moment of it: when nothing is pending for an is-reply byte and an id and the parts with both received since make up a payload, it is dispatched once, whole, and nothing else is dispatched for the two, whatever kinds and errors the parts carry |
| Runs.CallGoesOn | src/hotline/net/src/connection.cpp:226-250 | A call that has something to send, queueing a transaction included, goes on until the socket blocks, nothing is left, or the connection is gone |
| Runs.DeathClosesSocket | src/hotline/net/src/connection.cpp:41-50 | In every run of any calls, start out of turn included, a dead connection has closed its socket |
| Runs.CallCloses | src/hotline/net/src/connection.cpp:41-50 | No call leaves a dead connection with an open socket |
| Runs.SendsAreFifo | src/hotline/net/src/connection.cpp:226-245 | In every run the bytes the socket accepted followed by the unsent remainder of the queue are all bytes queued, in order; every queue entry keeps its offset below its size; and no send of a flush from there is issued with an empty span, whatever the socket does |
| Lifecycle.NoSpanIsEmpty | src/hotline/net/src/connection.cpp:228-230 | Every span that a flush hands to the socket is non-empty, also those behind partial writes and retries |
| Lifecycle.FlushGoesOn | src/hotline/net/src/connection.cpp:226-250 | A flush ends only with an empty queue, a socket that blocks, or death; with an empty queue a closing connection is dead |
| Handshakes.ServerAnswersBytes | src/hotline/server/src/connection.cpp:41-79 | The server step on the raw twelve bytes. Bytes 0 to 3 other than 'TRTP' or 'NICK': dead with nothing said. One of these and bytes 8 and 9 other than 00 01: 54 52 54 50 00 00 00 01 is queued, and it is closing, or dead after the flush. One of these and 00 01: 54 52 54 50 00 00 00 00 is queued and on_established fires, and it is established, or dead after the flush. Bytes 4 to 7 and 10 to 11 are remembered |
| Handshakes.ClientAnswersBytes | src/hotline/client/src/connection.cpp:45-59 | The client step on the raw eight bytes: established when bytes 0 to 3 are 'TRTP' or 'NICK' and the other four are zero, dead otherwise; nothing is said either way |
| Handshakes.ClientSpeaksBytes | src/hotline/client/src/connection.cpp:29-43 | Starting a client queues twelve bytes: 54 52 54 50, the sub-protocol, 00 01, the sub-version |
| Wire.VerdictOfBytes | src/hotline/protocol/include/hotline/protocol/handshake.h:103-113 | The verdict on a client handshake by its bytes 0 to 3 and 8 to 9 alone |
| Wire.AcceptanceOfBytes | src/hotline/protocol/include/hotline/protocol/handshake.h:120-129 | A server reply is an acceptance by its eight bytes alone |
| Rejection.RejectionIsSent | src/hotline/server/src/connection.cpp:58-69 | In every run in which a server reads a handshake that opens with 'TRTP' or 'NICK' and has bytes 8 and 9 other than 00 01, and its socket neither fails nor is closed from that call on: 54 52 54 50 00 00 00 01 stands in the queued bytes right behind what was queued before, and the server is closing still, or gone with all of it accepted, in the same call or in any later one |
| Rejection.RefusalIsQueued | src/hotline/server/src/connection.cpp:58-69 | The read call that finds an incompatible handshake queues exactly the refusal and ends closing, or dead with every queued byte accepted |
| Rejection.ParseRefuses | src/hotline/server/src/connection.cpp:58-69 | Parsing an incompatible handshake is queueing the refusal, entering closing and one flush; nothing behind the handshake is read |
| Rejection.SettlingStays | src/hotline/net/src/connection.cpp:226-250 | Whatever is called while a refusal is owed, queueing included, the server stays closing or is gone with the refusal accepted |
| Rejection.ClosingMeansRefused | src/hotline/server/src/connection.cpp:58-69 | In every run, failures and closing included, a connection in closing has the whole refusal among its queued bytes |
| Rejection.ParseClosesOnlyToRefuse | src/hotline/server/src/connection.cpp:51-69 | Only a handshake with a known tag and bytes 8 and 9 other than 00 01 leads a server into closing |
| Rejection.RunStaysOpen | src/hotline/net/src/connection.cpp:41-50 | In a run without close, a started connection has an open socket until it is dead |
| Runs.CallKeepsSane | src/hotline/net/src/connection.cpp:32-250 | Every permitted call keeps the connection invariant, moves the state onward, and leaves a dead connection unmoved |
| Runs.RunStaysSane | src/hotline/net/src/connection.cpp:32-250 | The invariant holds in every reachable state |
| Runs.ReadableSane | src/hotline/net/src/connection.cpp:94-116 | A read call keeps the invariant and does nothing at all on a dead connection |
| Runs.QueuedSane | src/hotline/net/src/connection.cpp:52-82 | Queueing keeps the invariant in every state, idle and dead included |
| Runs.StartedSane | src/hotline/client/src/connection.cpp:29-43 | Starting an idle connection gives a sane one that awaits the reply or the handshake, or is dead |
| Runs.ParseKeepsAssembled | src/hotline/net/src/connection.cpp:125-224 | Parsing keeps the partial entries and dispatches equal to what the completed parts make of nothing |
| Lifecycle.FlushKeepsQueue | src/hotline/net/src/connection.cpp:226-250 | Sending keeps accepted bytes plus unsent bytes equal to queued bytes and every entry non-empty; without a socket failure it kills the connection only from closing and only with everything accepted |
| Lifecycle.FlushKeepsOrder | src/hotline/net/src/connection.cpp:226-250 | Sending keeps the order of events, ends in the same state or dead, and on a dead connection sends nothing |
| Lifecycle.EnqueueKeepsQueue | src/hotline/net/src/connection.cpp:34-39 | Queueing bytes appends them to the account, and empty buffers are dropped |
| Lifecycle.ShiftMovesBytes | src/hotline/net/src/connection.cpp:241-244 | Advancing the offset of the first entry, or popping it, moves exactly the accepted bytes out of the unsent ones |
| Lifecycle.ParseKeepsQueue | src/hotline/net/src/connection.cpp:125-190 | Parsing keeps the account of queued, sent and unsent bytes |
| Lifecycle.ParseKeepsOrder | src/hotline/net/src/connection.cpp:125-190 | Parsing keeps the order of events, moves the state onward only, and leaves a dead connection as it is |
| Lifecycle.ServerShakeKeepsOrder | src/hotline/server/src/connection.cpp:41-79 | The server handshake ends established, closing or dead, with events in order |
| Lifecycle.ShakeKeepsOrder | src/hotline/client/src/connection.cpp:45-59 | The handshake step of either role keeps events in order, and only a server can end up closing |
| Lifecycle.DrainOnlyReads | src/hotline/net/src/connection.cpp:99-114 | The read loop changes nothing but the buffer and the socket, unless the socket fails: then it also kills the connection |
| ConnectionObject.ConnectionBase.constructor | src/hotline/net/include/hotline/net/connection.h:151-166 | A new connection is idle at the handshake stage with empty buffers, map and queue |
| ConnectionObject.ConnectionBase.MarkDead | src/hotline/net/src/connection.cpp:41-50 | Becomes dead, closes the socket and fires on_closed, or does nothing when already dead |
| ConnectionObject.ConnectionBase.MarkEstablished | src/hotline/net/include/hotline/net/connection.h:140-145 | Becomes established and fires on_established |
| ConnectionObject.ConnectionBase.QueueBytes | src/hotline/net/src/connection.cpp:34-39 | The new state is the old one with a non-empty buffer appended to the queue |
| ConnectionObject.ConnectionBase.FlushSends | src/hotline/net/src/connection.cpp:226-250 | The send loop over the deque, with partial writes and retries, computes the specified state for every outcome of the socket |
| ConnectionObject.ConnectionBase.HandleHandshake | src/hotline/net/include/hotline/net/connection.h:147-149 | The handshake step of the role, with the stage left to the caller |
| ConnectionObject.ConnectionBase.HandleClientHandshake | src/hotline/server/src/connection.cpp:41-79 | The server step: drop, reject then close, or accept, by the validation of the 12 bytes |
| ConnectionObject.ConnectionBase.Drop | src/hotline/server/src/connection.cpp:52-57 | A client of another protocol is dropped without a reply |
| ConnectionObject.ConnectionBase.Reject | src/hotline/server/src/connection.cpp:58-69 | An incompatible version gets a reply with reason 1 and the connection enters closing before the reply is flushed |
| ConnectionObject.ConnectionBase.Accept | src/hotline/server/src/connection.cpp:71-78 | An acceptable client gets reply 0 queued, then on_established, then the flush |
| ConnectionObject.ConnectionBase.HandleServerReply | src/hotline/client/src/connection.cpp:45-59 | The client step: established on an accepted reply, dead otherwise |
| ConnectionObject.ConnectionBase.ParseInbound | src/hotline/net/src/connection.cpp:125-190 | The parse loop over the mutable buffer terminates on every buffer and computes the specified state |
| ConnectionObject.ConnectionBase.TakeHandshake | src/hotline/net/src/connection.cpp:132-140 | One pass in the handshake stage |
| ConnectionObject.ConnectionBase.TakeHeader | src/hotline/net/src/connection.cpp:142-173 | One pass in the header stage: decode through the hooks first, then the size policy, then the data stage |
| ConnectionObject.ConnectionBase.DecodeHeaderBytes | src/hotline/net/src/connection.cpp:146-157 | The header bytes leave the buffer, pass through the hook in place, and become the pending header and flag |
| ConnectionObject.ConnectionBase.TakeData | src/hotline/net/src/connection.cpp:175-187 | One pass in the data stage: the payload leaves the buffer, is completed, and the header stage resumes |
| ConnectionObject.ConnectionBase.TakeBytes | src/hotline/net/src/connection.cpp:179-182 | Exactly the expected bytes leave the front of the buffer |
| ConnectionObject.ConnectionBase.CompleteTransaction | src/hotline/net/src/connection.cpp:192-224 | The payload is decoded, then dispatched whole or gathered in the map under (is_reply, id) and dispatched when complete, the entry erased |
| ConnectionObject.ConnectionBase.ServiceReadable | src/hotline/net/src/connection.cpp:94-116 | The read loop and then the parse, or nothing on a dead connection |
| ConnectionObject.ConnectionBase.Drain | src/hotline/net/src/connection.cpp:99-114 | The read loop: appends until would_block, retries interruptions, dies on any other error |
| ConnectionObject.ConnectionBase.ServiceWritable | src/hotline/net/src/connection.cpp:118-123 | The flush, or nothing on a dead connection |
| ConnectionObject.ConnectionBase.QueueTransaction | src/hotline/net/src/connection.cpp:52-82 | Header fields, flag, in-place encoding of header and payload, one buffer queued, and the flush |
| ConnectionObject.ConnectionBase.Start | src/hotline/client/src/connection.cpp:29-43 | Takes the socket over; a client queues and flushes its handshake, a server waits |
| ConnectionObject.ConnectionBase.CloseSocket | src/hotline/net/src/connection.cpp:32-32 | Closes the socket and nothing else: the state stays |
| CryptoHooks.ConnectionCryptoHooks.constructor | src/hotline/net/include/hotline/net/connection.h:77-90 | Without a cipher there are no hooks, with one the hooks stand for its two directions |
| CryptoHooks.ConnectionCryptoHooks.Encode | src/hotline/net/src/connection.cpp:66-74 | Encodes header and payload in place under the flag, or leaves them plain |
| CryptoHooks.ConnectionCryptoHooks.DecodeHeader | src/hotline/net/src/connection.cpp:153-156 | Decodes the header in place and returns its flag, or flag 0 without hooks |
| CryptoHooks.ConnectionCryptoHooks.DecodeData | src/hotline/net/src/connection.cpp:193-197 | Decodes the payload under the flag of its header |
| Socket.Socket.Send | src/appwarrior/net/src/socket.cpp:515-524 | A closed socket or an empty buffer is an error; otherwise the next outcome, which may accept any front of the buffer |
| Socket.Socket.Receive | src/appwarrior/net/src/socket.cpp:526-538 | A closed socket is an error; otherwise the next outcome: between 1 and 4096 bytes, would block, interrupted, or an error, end of stream included |
| Socket.Socket.TakeOver | src/hotline/client/src/connection.cpp:31-31 | Move assignment: the target becomes the source, which is left closed |
| Socket.Socket.Close | src/hotline/net/src/connection.cpp:32-32 | Closing changes nothing but openness |
| Lockstep.LoginRun | src/hotline/protocol/include/hotline/protocol/transaction_cipher.h:42-105 | For two peers built from one password and session key and every run, with messages pipelined and both directions interleaved: each has received exactly a front of what the other sent, its decoder key, schedule and stream equal the encoder of the other after as many messages, and the key is the login key permuted by the sum of the flags of non-empty messages |
| Lockstep.RunStaysInStep | src/hotline/protocol/include/hotline/protocol/transaction_cipher.h:55-97 | Every send and receive keeps both directions in step, with any number of messages in flight |
| Lockstep.SendKeepsStep | src/hotline/protocol/include/hotline/protocol/transaction_cipher.h:55-70 | Sending keeps a direction in step |
| Lockstep.ReceiveKeepsStep | src/hotline/protocol/include/hotline/protocol/transaction_cipher.h:76-97 | Receiving the oldest message in flight yields exactly the oldest unreceived message and keeps the direction in step |
| Lockstep.KeyAfterRun | src/hotline/protocol/include/hotline/protocol/transaction_cipher.h:61-66 | After any messages the key in force is the first key permuted by the sum of the flags of the non-empty ones |
| Lockstep.SealKeepsKeyed | src/hotline/protocol/include/hotline/protocol/transaction_cipher.h:55-70 | One message adds its flag to the permutations of the key, unless its payload is empty |
| Lockstep.SealedPrefix | src/hotline/protocol/include/hotline/protocol/transaction_cipher.h:55-70 | What is sent first does not depend on what is sent later |
| TransactionCipher.UnsealUndoesSeal | src/hotline/protocol/include/hotline/protocol/transaction_cipher.h:55-105 | From equal directions decoding recovers header, payload and flag whenever header byte 0 is the flag, and leaves equal directions, across the re-keying after the two-byte prefix |
| TransactionCipher.PassCancels | src/hotline/protocol/include/hotline/protocol/transaction_cipher.h:57-57 | Two passes over the same bytes from equal directions cancel and leave equal directions |
| TransactionCipher.PassDataCancels | src/hotline/protocol/include/hotline/protocol/transaction_cipher.h:84-97 | The same for a payload, whatever the flag |
| TransactionCipher.PassDataMasks | src/hotline/protocol/include/hotline/protocol/transaction_cipher.h:55-97 | Payload byte by byte: under flag 0 every byte is masked with the keystream of the schedule in force; under any other flag bytes 0 and 1 are, and byte 2 and all behind it with the keystream of the expansion of the key permuted that many times, by the stream as the two bytes left it |
| TransactionCipher.SealMasks | src/hotline/protocol/include/hotline/protocol/transaction_cipher.h:55-70 | The same for a whole message: the 20 header bytes first, then the payload from where they left the stream |
| TransactionCipher.TransactionCipher.constructor | src/hotline/protocol/include/hotline/protocol/transaction_cipher.h:42-50 | The client encodes with the session key permuted three times under the password and decodes with it permuted twice, the server the other way round, with fresh streams |
| TransactionCipher.TransactionCipher.Encode | src/hotline/protocol/include/hotline/protocol/transaction_cipher.h:55-70 | Header and payload arrays are overwritten with the sealed message, byte by byte as stated above, and only the encode direction moves |
| TransactionCipher.TransactionCipher.EncodeData | src/hotline/protocol/include/hotline/protocol/transaction_cipher.h:58-69 | The payload half of it |
| TransactionCipher.TransactionCipher.DecodeHeader | src/hotline/protocol/include/hotline/protocol/transaction_cipher.h:76-80 | The header array is overwritten with its plain text, every byte unmasked with its keystream byte, its first byte is the flag, and only the decode direction moves |
| TransactionCipher.TransactionCipher.DecodeData | src/hotline/protocol/include/hotline/protocol/transaction_cipher.h:84-97 | The payload array is overwritten with its plain text under that flag, byte by byte as stated above, and only the decode direction moves |
| Hmac.ComputeMac | src/appwarrior/crypto/include/appwarrior/crypto/hmac.h:31-62 | The two-pass computation with its pad arrays and reused buffer is the keyed hash of section 2 of RFC 2104, long keys hashed first |
| Hmac.MacIsNested | src/appwarrior/crypto/include/appwarrior/crypto/hmac.h:31-62 | Section 2 of RFC 2104 byte by byte: the key, hashed if longer than a block, with zeros behind it, masked with 0x36 before the message and with 0x5C before the inner digest |
| Hmac.DeriveLoginKeys | src/hotline/protocol/include/hotline/protocol/key_schedule.h:36-44 | The first login key is the keyed hash, under the password, of the keyed hash of the session key; the second is the keyed hash of the first |
| Hmac.PermuteKey | src/hotline/protocol/include/hotline/protocol/key_schedule.h:48-54 | The countdown loop is the iterated keyed hash under the session key; one round is the keyed hash of the key |
| Hmac.PermuteTwice | src/hotline/protocol/include/hotline/protocol/key_schedule.h:48-54 | Permuting m times and then n times is permuting m + n times |
| Hmac.LoginKeysArePermutations | src/hotline/protocol/include/hotline/protocol/key_schedule.h:36-54 | The login keys are the session key permuted two and three times under the password |
| Blowfish.EncryptWords | src/appwarrior/crypto/src/blowfish.cpp:34-45 | The sixteen rounds with their swaps compute the recursively defined Feistel network |
| Blowfish.EncryptionIsFeistel | src/appwarrior/crypto/src/blowfish.cpp:20-45 | Encryption is sixteen rounds in a row, each written out on the four bytes of the masked left word, highest first, and the two last round keys on the halves changed back |
| Blowfish.BlockIsTwoWords | src/appwarrior/crypto/src/blowfish.cpp:99-111 | A block is two big-endian words, the left one first, before and after encryption |
| Blowfish.DecryptWords | src/appwarrior/crypto/src/blowfish.cpp:47-58 | The downward loop is encryption under the reversed P array |
| Blowfish.UnwindRounds | src/appwarrior/crypto/src/blowfish.cpp:34-58 | Undoing m rounds of a ciphertext leaves the masked state before the last m rounds, for every m up to 16 |
| Blowfish.DecryptUndoesEncrypt | src/appwarrior/crypto/src/blowfish.cpp:34-58 | Decryption undoes encryption for every schedule and block |
| Blowfish.EncryptUndoesDecrypt | src/appwarrior/crypto/src/blowfish.cpp:34-58 | Encryption undoes decryption for every schedule and block |
| Blowfish.EncryptBlock | src/appwarrior/crypto/src/blowfish.cpp:99-115 | The byte form of encryption, big-endian halves |
| Blowfish.DecryptBlock | src/appwarrior/crypto/src/blowfish.cpp:117-127 | The byte form of decryption |
| Blowfish.BlockRoundTrip | src/appwarrior/crypto/src/blowfish.cpp:99-127 | On bytes each undoes the other |
| KeyExpansion.ExpandKey | src/appwarrior/crypto/src/blowfish.cpp:60-97 | The schedule returned, pair by pair: each of the nine pairs of P and the 128 pairs of each S-box in turn is the pair before it encrypted, the first the encryption of two zeros; in force are the returned words before the pair, and from it on P masked with the key words and S as it was given |
| KeyExpansion.ExpansionIsUnique | src/appwarrior/crypto/src/blowfish.cpp:60-97 | That description has exactly one schedule, the one returned |
| KeyExpansion.KeyWordIsCyclic | src/appwarrior/crypto/src/blowfish.cpp:69-75 | Key word i is the big-endian number of the four key bytes at 4i to 4i + 3 modulo the key length |
| KeyExpansion.TakeWord | src/appwarrior/crypto/src/blowfish.cpp:71-75 | Four key bytes, wrapping, make one big-endian word, and the cursor ends where the next word starts |
| KeyExpansion.MixKey | src/appwarrior/crypto/src/blowfish.cpp:68-77 | Every P entry is masked with its key word |
| KeyExpansion.FillP | src/appwarrior/crypto/src/blowfish.cpp:79-87 | P is rewritten by chained encryptions, each under the array as rewritten so far |
| KeyExpansion.FillBox | src/appwarrior/crypto/src/blowfish.cpp:88-96 | One S-box is rewritten the same way, from the words the chain carries |
| KeyExpansion.DependsOnCyclicStream | src/appwarrior/crypto/src/blowfish.cpp:68-77 | Two keys whose endless repetitions agree on 72 bytes give the same schedule |
| KeyExpansion.CursorsAgree | src/appwarrior/crypto/src/blowfish.cpp:69-75 | The cursor into m copies of a key always faces the rest of one copy and whole copies behind it |
| KeyExpansion.RepeatedKeyExpandsAlike | src/appwarrior/crypto/src/blowfish.cpp:60-97 | A key and any number of copies of it in a row expand to the same schedule |
| Ofb.Ofb64.Reset | src/appwarrior/crypto/src/blowfish.cpp:129-132 | A reset stream has the zero vector and offset 0 |
| Ofb.Ofb64.Process | src/appwarrior/crypto/src/blowfish.cpp:134-143 | The loop masks exactly the given stretch of the buffer with the keystream and advances the state by its length |
| Ofb.ProcessSplits | src/appwarrior/crypto/src/blowfish.cpp:134-143 | Processing a ++ b is processing a and then b from the carried state, through a partly used block |
| Ofb.ProcessCancels | src/appwarrior/crypto/src/blowfish.cpp:134-143 | Two passes from equal states cancel |
| Ofb.KeystreamSplits | src/appwarrior/crypto/src/blowfish.cpp:134-143 | The keystream of m + n bytes is that of m bytes and then that of n bytes from the carried state |
| Ofb.AdvanceTwice | src/appwarrior/crypto/src/blowfish.cpp:134-143 | Advancing by m and then by n is advancing by m + n |
| Ofb.FreshStreamAt | src/appwarrior/crypto/src/blowfish.cpp:129-143 | After 8q + r bytes of a fresh stream the offset is r and the feedback block is the (q + 1)-fold encryption of zero |
| Ofb.KeystreamIsOutputFeedback | src/appwarrior/crypto/src/blowfish.cpp:129-143 | Keystream byte 8q + r of a fresh stream is byte r of the (q + 1)-fold encryption of the zero block, as section 6.4 of NIST SP 800-38A defines with a zero vector |
| BlowfishCipher.Cipher.SetEncodeKey | src/appwarrior/crypto/src/blowfish.cpp:60-97 | The encode schedule becomes the expansion of the key, the decode schedule stays |
| BlowfishCipher.Cipher.SetDecodeKey | src/appwarrior/crypto/src/blowfish.cpp:60-97 | The decode schedule becomes the expansion of the key, the encode schedule stays |
| BlowfishCipher.Cipher.EncryptOne | src/appwarrior/crypto/src/blowfish.cpp:112-115 | Encrypts under the encode schedule; with equal schedules decryption gives the block back |
| BlowfishCipher.Cipher.DecryptOne | src/appwarrior/crypto/src/blowfish.cpp:117-127 | Decrypts under the decode schedule; with equal schedules encryption gives the block back |
| BlowfishCipher.Cipher.EncodeStream | src/appwarrior/crypto/src/blowfish.cpp:145-147 | Streams the stretch under the encode schedule |
| BlowfishCipher.Cipher.DecodeStream | src/appwarrior/crypto/src/blowfish.cpp:149-151 | Streams the stretch under the decode schedule, still by encryption |
| Wire.EncodeHeader | src/hotline/protocol/include/hotline/protocol/transaction.h:53-62 | The 20 bytes written into the span are the header, field by field |
| Wire.HeaderRoundTrip | src/hotline/protocol/include/hotline/protocol/transaction.h:53-75 | Decoding an encoded header gives it back |
| Wire.HeaderBytesRoundTrip | src/hotline/protocol/include/hotline/protocol/transaction.h:53-75 | Encoding a decoded header gives its 20 bytes back |
| Wire.HeaderBytes | src/hotline/protocol/include/hotline/protocol/transaction.h:8-16 | Flag, is-reply, type, id, error, total size and data size are the big-endian numbers at 0, 1, 2, 4, 8, 12 and 16 |
| Wire.ClientHandshakeRoundTrip | src/hotline/protocol/include/hotline/protocol/handshake.h:53-69 | Decoding an encoded client handshake gives it back |
| Wire.ServerReplyRoundTrip | src/hotline/protocol/include/hotline/protocol/handshake.h:71-84 | Decoding an encoded reply gives it back |
| Endian.ReadWriteU16 | src/appwarrior/core/include/appwarrior/core/endian.h:26-60 | Reading a written 16-bit value gives it back |
| Endian.WriteReadU16 | src/appwarrior/core/include/appwarrior/core/endian.h:26-60 | Writing a read 16-bit value gives the bytes back |
| Endian.ReadWriteU32 | src/appwarrior/core/include/appwarrior/core/endian.h:32-67 | Reading a written 32-bit value gives it back |
| Endian.WriteReadU32 | src/appwarrior/core/include/appwarrior/core/endian.h:32-67 | Writing a read 32-bit value gives the bytes back |
| AddressLaws.TextRoundTrip | src/appwarrior/net/src/address.cpp:161-272 | The text of an address parses back to it if and only if it is IPv4 or its scope id is 0 |
| AddressLaws.NormalisationIsIdempotent | src/appwarrior/net/src/address.cpp:161-272 | Any accepted text normalises: what is printed for it is accepted as the same address |
| AddressLaws.TextIsUnique | src/appwarrior/net/src/address.cpp:219-272 | An address has exactly one text |
| AddressLaws.TextIs | src/appwarrior/net/src/address.cpp:219-272 | What is printed: four decimal numbers and dots, or the host in brackets, and always a colon and the port in decimal |
| AddressLaws.HostRoundTrip | src/appwarrior/net/src/address.cpp:69-157 | The compressed host parses back to its eight groups and contains no closing bracket |
| AddressLaws.GroupsAreCanonical | src/appwarrior/net/src/address.cpp:268-268 | Groups are printed as sections 4.1 and 4.3 of RFC 5952 ask: lower case, one to four digits, no leading zero, denoting the group |
| AddressLaws.V4RoundTrip | src/appwarrior/net/src/address.cpp:24-53 | An IPv4 address and port printed in decimal parse back to themselves |
| AddressLaws.V6RoundTrip | src/appwarrior/net/src/address.cpp:69-217 | An IPv6 address printed with any permitted compression parses back to itself, but for its scope id |
| AddressLaws.CompressedHostRoundTrip | src/appwarrior/net/src/address.cpp:70-157 | Head, double colon and tail parse to the groups with the zeros put back |
| AddressLaws.GroupsRoundTrip | src/appwarrior/net/src/address.cpp:78-113 | Printed groups parse back, up to the room there is |
| AddressLaws.V4HostParses | src/appwarrior/net/src/address.cpp:24-53 | A printed dotted quad parses to its four octets |
| AddressLaws.PortRoundTrip | src/appwarrior/net/src/address.cpp:15-21 | A printed port parses back to itself |
| AddressGrammar.V4AcceptsQuads | src/appwarrior/net/src/address.cpp:24-53 | A host is accepted as IPv4 if and only if it is four non-empty decimal numbers of value at most 255 joined by dots, and these are the octets |
| AddressGrammar.GroupsAcceptHex | src/appwarrior/net/src/address.cpp:78-113 | Text is accepted as groups if and only if it is one or more groups of one to four hexadecimal digits joined by single colons, as many as there is room for, and these are the groups |
| AddressGrammar.V6AcceptsHosts | src/appwarrior/net/src/address.cpp:69-157 | A host is accepted as IPv6 if and only if it is eight such groups, or a head and a tail of at most seven together around a double colon, and these are the groups with zeros between |
| Address.LongestZeros | src/appwarrior/net/src/address.cpp:230-251 | The scan returns the first longest run of zero groups when it is at least two long, and none otherwise: section 4.2 of RFC 5952 |
| Address.PrintHost | src/appwarrior/net/src/address.cpp:253-269 | The loop prints the groups with that run collapsed to a double colon |
| Address.ToText | src/appwarrior/net/src/address.cpp:219-272 | The printed text is the one text of the address |
| Address.CompressionIsUnique | src/appwarrior/net/src/address.cpp:230-251 | Which run is collapsed is settled by the groups |
| Address.ParseV4 | src/appwarrior/net/src/address.cpp:24-53 | The scan accepts exactly the dotted quads the specification accepts and returns their octets |
| Address.ParseGroup | src/appwarrior/net/src/address.cpp:95-103 | The digit loop, with its 16-bit shifts, is the value of the hexadecimal digits or a refusal |
| Address.ParseGroups | src/appwarrior/net/src/address.cpp:78-113 | The group loop accepts at most eight groups of one to four digits with no empty one and returns them |
| Address.ParseV6 | src/appwarrior/net/src/address.cpp:69-157 | Eight groups, or a head and a tail of at most seven around the first double colon, with zeros put between |
| Address.FromBracketed | src/appwarrior/net/src/address.cpp:163-183 | The bracketed form: host between the brackets, then nothing or a colon and a port |
| Address.FromHost | src/appwarrior/net/src/address.cpp:203-216 | A host with a dot is IPv4, any other is IPv6 |
| AddressTexts.FromText | src/appwarrior/net/src/address.cpp:161-217 | A text is returned as an IPv4 address if and only if it is four octets joined by dots, alone with port 0 or with one colon and one to five decimal digits of the port's value behind them; as an IPv6 address, scope 0, if and only if it is a bare host with port 0, or a host in brackets, alone with port 0 or with a colon and such digits behind it; nothing else is accepted |
| AddressTexts.V4TextsAreAccepted | src/appwarrior/net/src/address.cpp:185-211 | The IPv4 half of that equivalence for every text, address and port |
| AddressTexts.V6TextsAreAccepted | src/appwarrior/net/src/address.cpp:161-217 | The IPv6 half, bare and bracketed |
| Text.DigitsAre | src/appwarrior/net/src/address.cpp:55-66 | The decimal digits are 0 to 9, and the hexadecimal digits these and a to f of either case |
| Md5.Digest | src/appwarrior/crypto/src/md5.cpp:89-140 | The block loop with its one or two tail blocks equals folding the block function over the padded message of sections 3.1 and 3.2 of RFC 1321 |
| Md5.Finish | src/appwarrior/crypto/src/md5.cpp:102-127 | The in-place tail buffer processes exactly the rest of the message with its padding, in one block or two |
| Md5.ProcessBlock | src/appwarrior/crypto/src/md5.cpp:42-85 | The 64 steps with rotating variables compute the specified block function |
| Md5.MixIsPerBit | src/appwarrior/crypto/src/md5.cpp:57-72 | The four functions of section 3.4 of RFC 1321 bit by bit: choice of c or d by b, of b or c by d, parity, and b ^ c or the complement of c by d |
| Md5.OrderOfWords | src/appwarrior/crypto/src/md5.cpp:57-77 | The word and rotation of every step are those the tables of section 3.4 list |
| Md5.FourSteps | src/appwarrior/crypto/src/md5.cpp:57-80 | Four steps that move values through the registers are the four operations [ABCD], [DABC], [CDAB], [BCDA] of section 3.4 in place |
| Md5.DigestOfOneBlock | src/appwarrior/crypto/src/md5.cpp:89-140 | Below 56 bytes the digest is the initial registers of section 3.3 plus the 64 steps over the one padded block, written A, B, C, D |
| Sha1.Digest | src/appwarrior/crypto/src/sha1.cpp:78-130 | The same for section 4 of FIPS 180-1 |
| Sha1.Finish | src/appwarrior/crypto/src/sha1.cpp:91-116 | The tail buffer processes exactly the rest of the message with its padding |
| Sha1.ProcessBlock | src/appwarrior/crypto/src/sha1.cpp:25-74 | The schedule array and the 80 steps compute the specified block function |
| Sha1.FillSchedule | src/appwarrior/crypto/src/sha1.cpp:26-36 | The message schedule array holds the recursively defined words |
| Sha1.WordsStretch | src/appwarrior/crypto/src/sha1.cpp:34-36 | Each schedule word behind the block is four earlier ones rotated by one |
| Sha1.MixIsPerBit | src/appwarrior/crypto/src/sha1.cpp:44-60 | The functions of section 5 of FIPS 180-1 bit by bit: choice, parity, and what two of the three agree on |
| Sha1.OneRegister | src/appwarrior/crypto/src/sha1.cpp:44-67 | The five registers are one sequence of words: each new one is made of the five before it, the older ones rotated by thirty |
| Sha1.DigestOfOneBlock | src/appwarrior/crypto/src/sha1.cpp:78-130 | Below 56 bytes the digest is the initial registers of section 7 plus the 80 steps over the one padded block, written in order |
| Padding.PaddedIsBlocks | src/appwarrior/crypto/src/md5.cpp:102-127 | A padded message is a whole number of 64-byte blocks |
| Padding.PaddedIs | src/appwarrior/crypto/src/md5.cpp:102-127 | A padded message is the message, 0x80, as few zeros as reach 56 modulo 64, and eight length bytes |
| Padding.LengthBytesAreTheLength | src/appwarrior/crypto/src/sha1.cpp:110-116 | The length bytes are the bit count modulo 2^64, highest byte first for one digest and lowest first for the other |
| Padding.PaddingIsInjective | src/appwarrior/crypto/src/md5.cpp:102-127 | Below 2^61 bytes different messages never pad alike |
| Digests.DigestsAreHashes | src/appwarrior/crypto/include/appwarrior/crypto/hmac.h:20-26 | MD5 and SHA-1 meet the requirements of the digest parameter of the keyed hash |
| FieldList.Encode | src/hotline/protocol/src/field_list.cpp:12-40 | The encoder loop writes the counted layout, or refuses too many fields or too large a field, in that order |
| FieldList.EncodingIs | src/hotline/protocol/src/field_list.cpp:22-39 | The encoding written out: the count, then every field as id, size and bytes |
| FieldList.Decode | src/hotline/protocol/src/field_list.cpp:42-79 | The decoder loop returns what the layout reads, with every error of every malformed input |
| FieldList.DecodeUndoesEncode | src/hotline/protocol/src/field_list.cpp:12-79 | Every encoded list decodes to itself; every strict prefix is truncated; every extension has trailing bytes |
| FieldList.EncodeUndoesDecode | src/hotline/protocol/src/field_list.cpp:12-79 | Whatever decodes encodes to exactly the same bytes |
| FieldList.FindField | src/hotline/protocol/src/field_list.cpp:81-88 | The first field with the id, or none when no field has it |
| FieldList.IntegerRoundTrip | src/hotline/protocol/src/field_list.cpp:109-143 | Every 32-bit integer survives an integer field, in two bytes exactly when it is an unsigned 16-bit value |
| FieldList.IntegerOfBytes | src/hotline/protocol/src/field_list.cpp:128-143 | Exactly one, two and four bytes are integers, highest byte first, negative only in four |
| FolderItems.EncodeItem | src/hotline/protocol/src/transfer.cpp:240-264 | The encoder builds the path first, refuses a long name or a large item, and writes size, type and count before it |
| FolderItems.EncodingIs | src/hotline/protocol/src/transfer.cpp:240-264 | The encoding written out: size, type, count, then every component as script, length and name |
| FolderItems.DecodeItem | src/hotline/protocol/src/transfer.cpp:266-307 | The decoder checks the size against the input before anything inside, then reads the path to its end |
| FolderItems.DecodePath | src/hotline/protocol/src/transfer.cpp:283-306 | The component loop reads the counted path and demands that it fill its bytes |
| FolderItems.PathTakesRoom | src/hotline/protocol/src/transfer.cpp:242-258 | Each component takes at least three bytes, so the 16-bit path count of an encodable item never wraps |
| FolderItems.DecodeItemUndoesEncode | src/hotline/protocol/src/transfer.cpp:240-307 | Every encodable item comes back; every strict prefix is truncated; every extension has trailing bytes |
| FolderItems.EncodeItemUndoesDecode | src/hotline/protocol/src/transfer.cpp:240-307 | Re-encoding a decoded item changes only the fifteen unused bits of the type word and is read as the same item |
| FlatFiles.Encode | src/hotline/protocol/src/transfer.cpp:48-69 | The encoder loop writes the documented header and forks, reserved bytes as zeros |
| FlatFiles.EncodingIs | src/hotline/protocol/src/transfer.cpp:48-69 | The encoding written out: 46 49 4C 50, version, 16 zeros, count, forks |
| FlatFiles.Decode | src/hotline/protocol/src/transfer.cpp:71-107 | The decoder loop returns what the layout reads, with every error |
| FlatFiles.DecodeUndoesEncode | src/hotline/protocol/src/transfer.cpp:48-107 | An encoded file comes back if and only if every fork is below 2^32 bytes: the size is cast to 32 bits |
| FlatFiles.ReservedBytesAreIgnored | src/hotline/protocol/src/transfer.cpp:71-107 | Whatever stands in the reserved bytes the same file is read; every strict prefix is truncated and every extension has trailing bytes |
| FlatFiles.EncodeUndoesDecode | src/hotline/protocol/src/transfer.cpp:48-107 | Re-encoding a decoded file changes reserved bytes only and is read as the same file |
| ResumeRecords.Encode | src/hotline/protocol/src/transfer.cpp:174-193 | The encoder loop writes the documented record |
| ResumeRecords.EncodingIs | src/hotline/protocol/src/transfer.cpp:174-193 | The encoding written out: 52 46 4C 54, version, 34 zeros, count, entries |
| ResumeRecords.Decode | src/hotline/protocol/src/transfer.cpp:195-228 | The decoder checks tag, version and the exact size first and then reads the entries by position |
| ResumeRecords.EntriesNeedRoom | src/hotline/protocol/src/transfer.cpp:206-213 | The count alone settles whether the entries are truncated, exact or followed by more |
| ResumeRecords.DataResumeSize | src/hotline/protocol/src/transfer.cpp:230-238 | The size in the last entry for the data fork, or 0 |
| ResumeRecords.DecodeUndoesEncode | src/hotline/protocol/src/transfer.cpp:174-228 | An encoded record comes back if and only if its version is 1 |
| ResumeRecords.ReservedBytesAreIgnored | src/hotline/protocol/src/transfer.cpp:195-228 | Whatever stands in the reserved bytes the same record is read; prefixes are truncated and extensions have trailing bytes |
| ResumeRecords.EncodeUndoesDecode | src/hotline/protocol/src/transfer.cpp:174-228 | Re-encoding a decoded record changes reserved bytes only and is read as the same record |
| InfoForks.Encode | src/hotline/protocol/src/transfer.cpp:109-135 | The encoder writes the 72 fixed bytes and the two sized texts, or refuses a long one |
| InfoForks.EncodingIs | src/hotline/protocol/src/transfer.cpp:109-135 | The encoding written out, every field in order |
| InfoForks.Decode | src/hotline/protocol/src/transfer.cpp:137-172 | The decoder, which reads by absolute position, returns what the sequential layout reads |
| InfoForks.DecodeUndoesEncode | src/hotline/protocol/src/transfer.cpp:109-172 | Every encoded fork decodes to itself; prefixes are truncated and extensions have trailing bytes |
| InfoForks.EncodeUndoesDecode | src/hotline/protocol/src/transfer.cpp:109-172 | Whatever decodes encodes to exactly the same bytes |
| InfoForks.StampOpens | src/hotline/protocol/include/hotline/protocol/payload.h:169-183 | A date stamp is written as year, milliseconds and seconds, and read from the same places |
| ServerLists.Encode | src/hotline/protocol/src/tracker.cpp:269-295 | The encoder loop writes type, size, total, count and entries, or refuses, in the order of its checks |
| ServerLists.EncodingIs | src/hotline/protocol/src/tracker.cpp:269-295 | The encoding written out: 00 01, size, total, count, entries |
| ServerLists.ServerIs | src/hotline/protocol/src/tracker.cpp:67-76 | One entry written out: address, port, users, flags, and two texts behind their lengths |
| ServerLists.Decode | src/hotline/protocol/src/tracker.cpp:297-336 | The decoder checks the size against the input before anything inside, then reads the entries to the end of the block |
| ServerLists.TakeServer | src/hotline/protocol/src/tracker.cpp:78-104 | One entry and the bytes it takes, or truncation |
| ServerLists.TakeText | src/hotline/protocol/src/tracker.cpp:53-64 | One length-prefixed text and the bytes it takes, or truncation |
| ServerLists.DecodeServers | src/hotline/protocol/src/tracker.cpp:323-334 | The entry loop, which must end with the block |
| ServerLists.DecodeUndoesEncode | src/hotline/protocol/src/tracker.cpp:269-336 | Every encoded list decodes to itself; prefixes are truncated and extensions have trailing bytes |
| ServerLists.EncodeUndoesDecode | src/hotline/protocol/src/tracker.cpp:269-336 | Whatever decodes encodes to exactly the same bytes |
| Tracker.Encode | src/hotline/protocol/src/tracker.cpp:108-125 | The encoder writes the fixed part and three length-prefixed texts, or refuses a long one |
| Tracker.EncodingIs | src/hotline/protocol/src/tracker.cpp:108-125 | The encoding written out: five numbers, then name, description and password behind their lengths |
| Tracker.Decode | src/hotline/protocol/src/tracker.cpp:127-169 | The decoder with its running total returns what the layout reads, the type checked first |
| Tracker.DecodeUndoesEncode | src/hotline/protocol/src/tracker.cpp:108-169 | An encoded registration comes back if and only if its type is add or remove |
| Tracker.NoPrefixNoExtension | src/hotline/protocol/src/tracker.cpp:127-169 | A strict prefix of a registration is truncated and an extension has trailing bytes |
| Tracker.EncodeUndoesDecode | src/hotline/protocol/src/tracker.cpp:108-169 | Whatever decodes encodes to exactly the same bytes |
| TrackerHandshake.BuildField | src/hotline/protocol/src/tracker.cpp:179-193 | The padded credential field is filled in place: length, at most 31 characters, zeros |
| TrackerHandshake.Encode | src/hotline/protocol/src/tracker.cpp:171-196 | The tag and version, and the two fields for version 2 only |
| TrackerHandshake.EncodingIs | src/hotline/protocol/src/tracker.cpp:171-196 | The encoding written out: 48 54 52 4B, version, and for version 2 the login and the password, each a length, at most 31 bytes and zeros |
| TrackerHandshake.Decode | src/hotline/protocol/src/tracker.cpp:198-245 | The decoder returns the specified result, the exact size of each version checked before its fields |
| TrackerHandshake.DecodeUndoesEncode | src/hotline/protocol/src/tracker.cpp:171-245 | What the other side learns: version 2 with both credentials clamped to 31 bytes, version 1 without, any other version unsupported |
| TrackerHandshake.NoPrefixNoExtension | src/hotline/protocol/src/tracker.cpp:198-245 | A strict prefix is truncated and an extension has trailing bytes |
| TrackerHandshake.EncodeUndoesDecode | src/hotline/protocol/src/tracker.cpp:171-245 | Re-encoding a decoded handshake changes padding only and is read as the same handshake |
| ArchiveReader.Decode | src/hotline/protocol/src/archive.cpp:29-136 | The three-level parser returns what the nested layout reads for arbitrary bytes, with every error in the order of its checks and every access in range |
| ArchiveReader.TakeEntry | src/hotline/protocol/src/archive.cpp:65-129 | One file: path head, path block consumed exactly, reserved bytes, head, payload |
| ArchiveReader.DecodeEntries | src/hotline/protocol/src/archive.cpp:61-134 | The file loop, which must end with the input |
| ArchiveReader.FileWrites | src/hotline/protocol/include/hotline/protocol/archive.h:3-10 | The layout that is read is the documented one, written out byte by byte, and the bytes that carry no meaning are exactly the reserved ones and the padding of the name |
| ArchiveReader.SerialisedIs | src/hotline/protocol/include/hotline/protocol/archive.h:3-10 | The documented container, field by field, opening with 68 61 72 63 |
| ArchiveReader.EntryIs | src/hotline/protocol/include/hotline/protocol/archive.h:5-10 | One documented file entry, field by field |
| ArchiveReader.DecodeUndoesSerialise | src/hotline/protocol/src/archive.cpp:29-136 | An archive written by the documented layout is read back if and only if every size and count fits its field |
| ArchiveReader.SerialiseUndoesDecode | src/hotline/protocol/src/archive.cpp:29-136 | On success the header, the reserved bytes and the entry sizes add up to the input exactly, and the input is the archive written out but for ignored bytes |
| ArchiveReader.IgnoredBytesDoNotMatter | src/hotline/protocol/src/archive.cpp:29-136 | Whatever stands in the ignored bytes the same archive is read; prefixes are truncated and extensions have trailing bytes |
| ArchiveReader.HeaderReads | src/hotline/protocol/src/archive.cpp:31-54 | The header fields are read from their positions, the name clamped to 63 characters |
| IvarArray.Decode | src/appwarrior/core/src/ivar_array.cpp:11-73 | The two passes return the specified result for arbitrary bytes, every access in range |
| IvarArray.AcceptsWellFormed | src/appwarrior/core/src/ivar_array.cpp:11-73 | By position alone: bytes are accepted if and only if there is room for the rows that the number at 12 announces, below 2^24, and their offsets never step back nor pass the end; item i then has the id at 16 + 8i and the data from its row's offset to the next |
| IvarArray.CheckOffsets | src/appwarrior/core/src/ivar_array.cpp:38-51 | The first pass accepts exactly the tables whose offsets never step back and stay in the data |
| IvarArray.Slice | src/appwarrior/core/src/ivar_array.cpp:53-70 | The second pass gives every row its id and its slice, in table order |
| IvarArray.DecodedItemsTile | src/appwarrior/core/src/ivar_array.cpp:11-73 | The items in table order concatenate to exactly the data from the first offset to the last: no gap, no overlap |
| IvarArray.SlackIsIgnored | src/appwarrior/core/src/ivar_array.cpp:33-51 | What lies behind the last offset does not change the result |
| IvarArray.Find | src/appwarrior/core/src/ivar_array.cpp:75-82 | The first item with the id, or none when no item has it |
| Layouts.WholeLaws | src/hotline/protocol/src/field_list.cpp:42-79 | For every lawful layout: what it writes is read whole, a cut is truncated, an extension has trailing bytes |
| Layouts.FramedLaws | src/hotline/protocol/src/transfer.cpp:266-280 | The same for a layout in a block of stated size whose end is checked before its contents |
| Layouts.BoxedLawful | src/hotline/protocol/src/archive.cpp:75-104 | A layout that must fill a sized block exactly is lawful when the layout is |
| Layouts.PaddedNameLawful | src/hotline/protocol/src/tracker.cpp:225-243 | A length byte and a name in a zero-padded field is lawful, its padding ignored, whether overlong lengths are clamped or refused |
| Codec.PairLawful | src/hotline/protocol/src/transfer.cpp:71-107 | One lawful layout after another is lawful |
| Codec.ManyLawful | src/hotline/protocol/src/field_list.cpp:52-72 | A stated number of the same lawful layout is lawful |

## Left out

- Socket, listener and poller system calls: the socket is a script of outcomes per call; a script is finite, so an endless stream of interruptions, on which the original loops would spin, is not modelled.
- Random flag choice: the flag is an argument of each queued transaction, so every choice is covered.
- Callbacks: assumed present; they only record, and do not call back into the connection.
- CryptoHooks.ConnectionCryptoHooks.constructor: the four hooks are given as one set, all or none, as a cipher provides them, and are fixed before start; mixtures of present and absent hooks are not modelled.
- Calling start twice: excluded from orderly runs; `Runs.OnlyStartRevives` says what it would do to a dead connection.
- Server transactions queued before the handshake reply: nothing orders them after the reply, so the delivery theorem lets a live server queue only once its handshake step ran.
- Payloads of 2^32 bytes or more in the delivery theorem: their size is announced modulo 2^32 and the stream behind them loses its framing; `Streams.ArrivesIffFits` covers the single request.
- queue_keepalive: one call of queue_transaction with the two-byte empty field list.
- The constant tables of the cipher (P and S boxes): the initial schedule is a parameter.
- The expanded key schedules are values that methods return, not arrays written through an out parameter.
- Byte equality of the key permutation with older peers, which pass the arguments to the keyed hash in the other order: only that two peers of this code agree.
- The legacy flag quirk helper, Session, access masks, GUIDs, alignment, bit and HOPE name helpers: small finite facts.
- IPv6 addresses are held as eight 16-bit groups rather than sixteen octets, and the port text is read as a number without the library call.
- Messages of 2^61 bytes or more: their bit count is taken modulo 2^64, as the code takes it, and padding is proved injective only below.
- zlib inflation of archive entries, and the size cap checked before it.
- Tracker handshake reply, lookup messages, folder download commands and the resume command: fixed-size or one-branch combinations of layouts proved here.
- Text fields as strings: names and texts are byte sequences.
- Info forks: the two dates are read by a helper that also checks for exactly eight bytes, which always holds here and is not modelled.
