# Verification model of gcbb

gcbb lets peers rent computation from each other: a node deploys a job, workers fetch its files from
peers, compute redundantly, and a vote decides the answer. This project models the five parts of it
that carry hard guarantees and proves what they keep over whole runs, on all inputs.

**Reliable transport** (`src/net/queue.go`, `src/net/multipack.go`). `LoopedQueues` is the ring of
wrapping sequence numbers as a class over an array. `Fragments` cuts messages up and puts them
together again. `Endpoints` is one end of a connection as functions over its state;
`MultiPackHandlers` is the handler as a class whose loops are proved to compute exactly those
functions. `Links` relates a sender and a receiver, `Transport` puts two endpoints on a network that
keeps every packet ever sent and may deliver any of them at any time, in any order, any number of
times, and `TransportTheorems` states what every run guarantees. `SyncExact` says which fragments
`syncState` sends, which timers run afterwards and how far the window grows, and `SyncRuns` what a
packet or a timeout does to a running connection. `Stalls` says exactly when the
acknowledgement rule of the source stops a direction, and `Completion` that with the other rule every
reachable state can still deliver everything.

**Wire codec** (`src/common/encoder.go`). Reflection becomes a type descriptor. `Codec` has encoding
and decoding as functions, and the recursive writer and reader as methods over a buffer and a reader.
`CodecRoundTrip` and `CodecExact` prove the round trip and exactly when it holds, `CodecBytes` what
every byte of an encoding is, and `CodecCut` what becomes of a message that is cut off; `Wire` applies
the codec to the messages of the three network layers and to the 1024-byte datagram, and `WireLayout`
says where each of their fields lies.

**Redundant computation** (`src/master/session.go`, `src/worker/session.go`). `Blinding`, and
`BlindingBytes` for the same byte by byte; `Vote`, and `VoteRuns` for the vote told by the events of a
run alone; `Worker`.

**File system** (`src/fs`). `FileIndex` is the store with its two share indexes, `ShareSessions` one
share, `ParallelPurchase` the purchase of several file groups, `PurchaseCandidates` whom it asks, told
by the events of a run alone, `PurchaseSuccess` when it may announce
success too early, `PurchasePanics` for which file descriptions it can panic, `PurchaseStore` what one
reply pack does to the store, and `StoredSuccess` the
whole purchase: the parallel session, the purchase sessions it started, their reports and the store;
`SaleProgress` shows that one honest seller is enough for it to succeed.

**Routing and scheduling** (`src/net/kad.go`, `src/net/p2p.go`, `src/master/scheduler.go`).
`KadDistance`, `Kademlia`, `Flooding`, `Scheduler`; `Routing` says who gets a copy of a message and in
which order the peers of a bucket stand; `ServerRuns` is the server loop with every use it makes of the
routing table.

## How to read it

A class method promises that the new state of its object is a function of the old one (`View()` before
and after), and the lemmas are about that function. Each `select` case of a Go event loop is one atomic
step; a run is a sequence of them. uint32 arithmetic is written out (`Words`): `Add`, `Sub` and `Wrap`
reduce modulo 2^32. A panic of the source is modelled as a `crashed` flag or as `None`, after which
nothing happens. Timers, clocks, the congestion window, hash and key generation, and the order in which
Go visits a map are parameters or choices that the theorems quantify over.

## Where the code and its evident intent differ

The transport cannot run as it is written: `NewNaiveMultiPackHandler` never builds the queues, the
lists or the timer map (src/net/multipack.go:97-109). Four repairs are built into the model: the queues
exist and both ends start at the same number; ring accesses by number add the head offset; the drain
loop reads the front of the queue and ends at a hole; a timeout for a number already released is
ignored. What the literal code does instead, and every other difference, is kept as a second reading
and proved to be right or wrong exactly where it is:

| literal code | what is proved about it |
|---|---|
| `GetBySeq`/`SetBySeq` use the offset as a ring index (src/net/queue.go:52-63) | `LiteralSlotExact`: right exactly while the head is at index 0; `LiteralMissesHead`: after one cycle it loses the head |
| the head of the queue is read with `Get(GetStSeq())` (src/net/multipack.go:314) | `HeadReadExact`, `LiteralHeadExact`: right exactly while the start number equals the head index; counted from 0 it is right for the first size + 1 elements, and the next read is an index panic |
| the type assertion on the head fails on a hole (src/net/multipack.go:314) | `HolePanicsExactly`: the receiver panics exactly if a new fragment leaves a hole at the front, so an empty one survives exactly the fragments that come in order |
| the type assertion on a timeout fails if the number is not held (src/net/multipack.go:397) | `TimeoutPanicsExactly`: exactly if the fragment was released meanwhile |
| a state whose `MapStSeq` is the end of the window is ignored (src/net/multipack.go:227) | safety holds all the same (`EndToEndSafety` is for both rules); `StallExact`: a full and drained window can change exactly if a packet that can still be delivered acknowledges a part of it; `StallReachable`: from the start such a stall is reached if the sender's queue is not larger than the receiver's; `LargerWindowHasAck`: with a larger one such a packet was always sent; `Completion.CanComplete` for the other rule |
| no completeness check after the first fragment (src/net/multipack.go:316-321) | `LiteralReassemblyExact`: right exactly if no non-empty message fits in one fragment; the endpoint theorems cover both |
| 16 bytes counted for `PackInfo` (src/net/multipack.go:54) | `DatagramSize`: a full fragment makes 1032 bytes, not 1024; `TruncationExact`, `PacketSurvivesExact`: what is cut off happens to be zero |
| `Bytes()[:20]` of a minimal big integer (src/worker/session.go:146, src/master/session.go:175) | `LiteralBlindingExact`: the exact set of answers and keys for which blinding cancels. It is larger than "answer at least 2^152 and no carry": some carries cancel too |
| `uintptr` is written in 8 bytes and not read (src/common/encoder.go:49-50, 130-133) | `RoundTripExact`: a type round-trips exactly if no `uintptr` can occur in it |
| slices are appended to the destination (src/common/encoder.go:78-177) | `DestinationExact`: the value comes back exactly if no slice of the destination has elements |
| first keys, sizes and hashes are read without a check (src/fs/tracker.go:119-122, 145) | `PanicsExactly`: some run panics exactly if some group has no size, no hash or no keys |
| a pack may have fewer keys than requested (src/fs/purchase.go:97-107) | `SuccessIsComplete`, `EmptyFileLeftOut`, `WorkerNeedsCompletePack`: all keys are stored, and the worker executes instead of panicking, exactly if the pack had all keys; leaving out an empty last file is accepted under every hash function |
| groups are found by their first key (src/fs/tracker.go:145) | `SuccessIsSoundExactly`: success is announced soundly in every run exactly if the first keys differ |
| the store is written once (src/fs/fs.go:144-150) | `ReadBackExact`: a pack reads back exactly if neither the store nor the pack contradicts it |
| repeated peers in a share (src/fs/share.go:81-91) | `CounterExact`: the counter counts the unfinished peers exactly if no peer is repeated; otherwise it never reaches zero |
| 160 buckets for distances 0..160 (src/net/kad.go:29) | `BucketCountExact`: each operation panics exactly if the top bits of the last bytes differ; `RunPanicsExactly`, `EnoughBuckets`: runs of the steps that change the table, with 160 and with 161; `ServerPanicsExactly`: runs with sends, which also panic for another reason, see the next line |
| state of a nil handler read for a log line (src/net/p2p.go:162) | `ServerPanicsExactly`: a run of the server panics exactly if some step names an id without a bucket, or a send names a peer for which the run so far left no handler; `RepairedNeverPanics`: with 161 buckets and the line after the nil test none does; `LiteralSendExact` for one send, so the two fallbacks are only for handlers that are not ready |
| the vote doubles a uint32 count (src/master/session.go:193) | `DoublingExact`: right exactly for counts below 2^31; `CanTerminateExact`, `DecidesExactly`: the decision for all submissions up to 2^32 |
| the worker does not look at the result of its purchase (src/worker/session.go:129-137) | `ExecutesExactly`: it executes exactly if the first key group is stored when the result arrives, else it panics; `SuccessLetsWorkerExecute`: after a success with complete packs it is |

## Model

| member | source | states |
|---|---|---|
| LoopedQueues.RunRefines | src/net/queue.go:23-91 | after any sequence of pushes, pops and puts the ring holds exactly the elements this sequence accepted, as last overwritten, and did not take; its sequence numbers count both modulo 2^32, and its length is their difference |
| LoopedQueues.OpRefines | src/net/queue.go:73-91 | one operation keeps that relation between the ring and its history |
| LoopedQueues.HoldsIsInterval | src/net/queue.go:35-37 | the uint32 test is membership in the circular interval from `stSeq` to `enSeq`, across the wrap-around |
| LoopedQueues.LengthExact | src/net/queue.go:23-29 | the uint32 length is right for all ring indices if and only if size < 2^31 |
| LoopedQueues.LiteralSlotExact | src/net/queue.go:39-63 | the source touches the right slots of a non-empty queue if and only if its head is at index 0 |
| LoopedQueues.LiteralMissesHead | src/net/queue.go:39-63 | a concrete queue whose head element the source does not find |
| LoopedQueues.HeadReadExact | src/net/multipack.go:314 | `Get(GetStSeq())` reads the front of a non-empty ring if and only if the start number equals the head index |
| LoopedQueues.LiteralHeadExact | src/net/multipack.go:314 | over all runs from an empty ring the head read is right if and only if the elements taken, counted from the first number in uint32, give the same as counted round the ring; counted from 0 (below 2^32), right for size + 1 elements and then an index panic |
| LoopedQueues.LoopedQueue.constructor | src/net/queue.go:12-21 | an empty queue at the given sequence number |
| LoopedQueues.LoopedQueue.Length | src/net/queue.go:27-29 | the number of elements held, although computed in wrapping uint32 |
| LoopedQueues.LoopedQueue.IsValidSeq | src/net/queue.go:35-37 | true exactly for the numbers of the elements held |
| LoopedQueues.LoopedQueue.GetBySeq | src/net/queue.go:52-57 | the element of that number, if it is held (repaired index) |
| LoopedQueues.LoopedQueue.LiteralGetBySeq | src/net/queue.go:39-57 | the index of the source, right while the head is at index 0 |
| LoopedQueues.LoopedQueue.SetBySeq | src/net/queue.go:59-63 | replaces that element and nothing else (repaired index) |
| LoopedQueues.LoopedQueue.PopFront | src/net/queue.go:73-81 | takes the first element and moves the start number by one |
| LoopedQueues.LoopedQueue.PushBack | src/net/queue.go:83-91 | appends exactly if the queue is not full |
| LoopedQueues.RunOps | src/net/queue.go:3-91 | the array, with its head index, follows the abstract queue through any sequence of operations |
| Fragments.FragmentationIsPartition | src/net/multipack.go:124-155 | ceil(n/M) fragments numbered from 0, each with the count, all but the last of M bytes and the last of 1..M, whose concatenation is the input |
| Fragments.ReassemblyInvertsFragmentation | src/net/multipack.go:124-155 | the fragments of any list of messages fed to the drain loop give back exactly the non-empty ones with nothing left over; the literal loop exactly those longer than one fragment |
| Fragments.LiteralReassemblyExact | src/net/multipack.go:312-347 | the literal loop gives a list back whole if and only if no non-empty message fits one fragment |
| Fragments.FeedStream | src/net/multipack.go:312-347 | every prefix of a stream delivers a prefix of the messages and never makes the loop look at one head for ever |
| Fragments.StreamAppend | src/net/multipack.go:124-155 | one more `Send` extends the stream by exactly its fragments |
| Endpoints.MapBit | src/net/multipack.go:169-185 | a bit of the bitmap is set if and only if that slot is filled |
| Links.GetStateOk | src/net/multipack.go:169-185 | a state message gives the receive window and the room in it, and of its first eight slots exactly which are filled |
| Links.StateStays | src/net/multipack.go:169-185 | what a state says stays true while the receiver advances |
| Links.ReleaseKeeps | src/net/multipack.go:227-237 | an acknowledgement, current or stale, releases nothing the receiver lacks |
| Links.MapLoopKeeps | src/net/multipack.go:238-256 | stopping timers by the bitmap drops no duty to retransmit, even for an old state |
| Links.AssignKeeps | src/net/multipack.go:276-287 | a newly numbered fragment is the next of the stream and lies below the receiver's start plus its size |
| Links.ExpectLoopKeeps | src/net/multipack.go:258-289 | the loop over the expected numbers never overruns the receiver's window |
| Links.SyncKeeps | src/net/multipack.go:220-295 | `syncState` on any fresh state the receiver ever sent keeps the sender, the link and every emission right |
| Links.StoreExact | src/net/multipack.go:300-311 | of fresh fragments the size check discards exactly those already drained |
| Links.StaleStoredExact | src/net/multipack.go:303-306 | the freshness bound is exact: a fragment staler than 2^32 minus the size is taken for a new one |
| Links.StaleStateExact | src/net/multipack.go:227-237 | a state from up to one period ago acknowledges if and only if its number one period later lies in the window (or at its end, for the inclusive rule); a fresh one never does, and with a full window one that is not fresh always does |
| Links.StaleSyncExact | src/net/multipack.go:220-295 | for such a state that is not fresh: `syncState` releases a fragment the receiver has not drained if and only if the state acknowledges with a number beyond the receiver's start; it numbers a fragment beyond the receiver's window if and only if the expected number falls into the window or at its end, the state's number is beyond the receiver's start, and there is room and a fragment to number up to there |
| Links.ExpectReaches | src/net/multipack.go:258-289 | from any state at all, how far the loop over the expected numbers extends the window |
| Links.HolePanicsExactly | src/net/multipack.go:312-348 | without the repair at holes a fresh fragment panics the receiver if and only if it is new and leaves a hole at the front; an empty receiver survives exactly fragments in order |
| Links.TimeoutPanicsExactly | src/net/multipack.go:396-399 | without the guard a timeout for a numbered fragment panics if and only if the fragment was released |
| Links.DrainKeeps | src/net/multipack.go:312-348 | draining keeps every slot right, never hangs, and stops at a hole or an empty queue |
| Links.ReceiveKeeps | src/net/multipack.go:297-349 | `handlePackReceive` on any fresh fragment ever sent keeps the receiver and the link |
| Links.SendKeeps | src/net/multipack.go:124-155 | a message handed over extends the stream and the queue of pending fragments alike |
| SyncExact.SyncExactly | src/net/multipack.go:220-295 | what `syncState` does with any fresh state: on the wire go, once each and in order, exactly the fragments among the first eight below the expected number that the map says are missing, and from the expected number on those that are due and all that are newly numbered; how far the window grows; whose timers run afterwards (none for a number the map says is stored, unless it is sent again); how much of the pending fragments moves to the window and to the waiting list |
| SyncExact.MapSends | src/net/multipack.go:238-256 | from each bit on, the map loop resends exactly the numbers whose bit is clear and stops the timers of exactly those whose bit is set |
| SyncExact.ExpectSends | src/net/multipack.go:258-289 | from each number on, the loop over the expected numbers resends exactly those that are due, numbers new fragments up to the first of its three bounds, and sends all of them |
| SyncExact.ExpectTakes | src/net/multipack.go:265-287 | the fragments it numbers are the next ones, those of the waiting list before those of the channel |
| SyncExact.RefillFills | src/net/multipack.go:291-294 | the last loop moves fragments in order from the channel to the waiting list, exactly until that has the length of the window or the channel is empty |
| SyncRuns.DeliveryExact | src/net/multipack.go:220-295 | in every state that keeps the invariant, what a delivered packet makes its receiver put on the wire: exactly one data packet, with the state of the moment, for each number that the map says is missing, is due, or enters the window |
| SyncRuns.TimeoutExact | src/net/multipack.go:396-399 | a timeout for a numbered fragment puts exactly that fragment on the wire and starts its timer if it is still in the window, and changes nothing otherwise |
| SyncRuns.ReceivedExactly | src/net/multipack.go:297-349 | after any fresh fragment the receiver holds or has drained what it had before and this one, and nothing else; its window reaches it, and starts at the first number it lacks |
| Transport.StepKeeps | src/net/multipack.go:379-405 | every step of either end keeps the invariant of both directions |
| Transport.ReachableInv | src/net/multipack.go:379-405 | the invariant holds in every reachable state |
| TransportTheorems.EndToEndSafety | src/net/multipack.go:220-349 | in every run of the lossy, duplicating, reordering network, both directions: windows nested, filled slots hold the fragment of their number, delivered messages a prefix of those sent and all of them once all is drained, no overrun, no lost duty to retransmit |
| TransportTheorems.LiteralAckDeadlock | src/net/multipack.go:227-237 | with the literal rule a full and drained window stays as it is whatever both ends and the network do, provided no packet that can still be delivered acknowledges a part of it |
| Stalls.StallExact | src/net/multipack.go:227-237 | in every state that keeps the invariant, with the literal rule and a full and drained window: some run changes the sender's queue if and only if a packet that can still be delivered acknowledges a part of the window |
| Stalls.StallReachable | src/net/multipack.go:227-289 | with the literal rule and a sender's queue of at least one slot and at most the receiver's size, a run leads from the start to such a stall |
| Stalls.LargerWindowHasAck | src/net/multipack.go:258-289 | with a sender's queue larger than the receiver's, whenever the window is full and drained a packet that acknowledges a part of it was sent |
| TransportTheorems.LiteralOneSlotSendsOnce | src/net/multipack.go:227-237 | with the literal rule and one slot nothing is ever released and one fragment at most is drained |
| TransportTheorems.InclusiveAckProgress | src/net/multipack.go:227-289 | with the inclusive rule a current state releases the whole drained window and a new fragment is sent |
| Completion.CanComplete | src/net/multipack.go:220-405 | with the inclusive rule and queues of at least one slot, every reachable state has a continuation after which all wanted messages of both directions are delivered in order and both windows are released |
| Completion.Retransmit | src/net/multipack.go:396-399 | whenever a numbered fragment is missing at the receiver's front, a timeout and one delivery make the receiver drain it |
| MultiPackHandlers.MultiPackHandler.Send | src/net/multipack.go:124-155 | the two loops put exactly the fragments of the message on the channel |
| MultiPackHandlers.MultiPackHandler.GetStateMsg | src/net/multipack.go:169-185 | the bitmap loop computes the state function |
| MultiPackHandlers.MultiPackHandler.SendFrag | src/net/multipack.go:351-377 | sends the fragment with the current state and starts its timer |
| MultiPackHandlers.MultiPackHandler.SendStatus | src/net/multipack.go:351-377 | sends the bare state and changes nothing else |
| MultiPackHandlers.MultiPackHandler.ReleaseUpTo | src/net/multipack.go:226-237 | the first loop of `syncState` releases up to the acknowledged number and stops those timers |
| MultiPackHandlers.MultiPackHandler.RetransmitHoles | src/net/multipack.go:238-256 | the second loop computes the map function of which `SyncExact.MapSends` says that it retransmits exactly the holes of the map and stops exactly the timers of stored fragments |
| MultiPackHandlers.MultiPackHandler.FillExpected | src/net/multipack.go:258-289 | the third loop computes the function of which `SyncExact.ExpectSends` says what it sends and numbers |
| MultiPackHandlers.MultiPackHandler.SyncFrom | src/net/multipack.go:220-295 | the imperative `syncState` computes the function the safety proof and `SyncExact.SyncExactly` are about, with every emission |
| MultiPackHandlers.MultiPackHandler.PadHoles | src/net/multipack.go:307-309 | pushes one hole for every number not received yet |
| MultiPackHandlers.MultiPackHandler.DrainHead | src/net/multipack.go:314-347 | one turn leaves the rest of the drain unchanged and lowers (queue length, partial length) lexicographically |
| MultiPackHandlers.MultiPackHandler.DrainQueue | src/net/multipack.go:312-348 | the loop terminates by that measure, including the two `continue` paths, and computes the drain function |
| MultiPackHandlers.MultiPackHandler.HandlePackReceive | src/net/multipack.go:297-349 | the imperative receive computes the function the safety proof is about |
| MultiPackHandlers.MultiPackHandler.OnPackArrive | src/net/multipack.go:385-395 | a packet is synchronised first and stored second |
| MultiPackHandlers.MultiPackHandler.OnTimerFired | src/net/multipack.go:396-399 | retransmits the number, if it is still in the window |
| Codec.EncodeTypes | src/common/encoder.go:18-76 | the writer appends exactly the encoding of the value, whose every byte `CodecBytes.EncodeExact` states |
| Codec.DecodeTypes | src/common/encoder.go:78-177 | the reader gives the decoded value and leaves exactly the rest of the input; the value is the encoded one (`CodecRoundTrip`), or what `CodecCut` says if the input was cut off |
| Codec.EncodeElements | src/common/encoder.go:18-76 | the element loop appends the encodings one after the other |
| Codec.DecodeSlice | src/common/encoder.go:78-177 | a slice is read by its length prefix and appended to the destination |
| CodecRoundTrip.RoundTrip | src/common/encoder.go:179-192 | decoding an encoding with anything behind it gives the value and leaves exactly that |
| CodecRoundTrip.RoundTripInto | src/common/encoder.go:78-177 | the same for every destination, as the merge of the destination and the value |
| CodecRoundTrip.DestinationExact | src/common/encoder.go:78-177 | the value itself comes back if and only if no slice of the destination has elements |
| CodecRoundTrip.PrefixFree | src/common/encoder.go:18-76 | encodings of one type are injective and none is a proper prefix of another |
| CodecRoundTrip.SignedBack | src/common/encoder.go:18-76 | two's complement integers of every width keep their sign |
| CodecExact.RoundTripExact | src/common/encoder.go:49-50 | every value of a type comes back, whatever follows, if and only if no `uintptr` can occur in it |
| CodecExact.BytesToSpare | src/common/encoder.go:130-133 | the value that fails, and that too many bytes are left over |
| CodecBytes.EncodeExact | src/common/encoder.go:18-76 | every byte of an encoding: a number in its width, most significant byte first, negative ones in two's complement; a truth value as 1 or 0; strings and slices behind a four-byte length; elements and fields one after the other |
| CodecBytes.BigByte | src/common/encoder.go:28-53 | byte j of a k-byte number is the digit of 256^(k-1-j) |
| CodecBytes.FromBigByte | src/common/encoder.go:90-137 | the number read has exactly the bytes read as its digits, in this order |
| CodecBytes.MostSignificantFirst | src/common/encoder.go:44-45 | 0x01020304 is written 01 02 03 04 |
| CodecCut.FieldsCut | src/common/encoder.go:78-177 | a struct cut off at any byte decodes to its fields up to the cut, the field the cut falls into decoded from what is left of it, and zero values |
| CodecCut.CutConsumed | src/common/encoder.go:78-177 | whatever message is cut off, nothing of it is left |
| CodecCut.CutNumber | src/common/encoder.go:85-137 | a number cut anywhere reads as zero, a truth value as false |
| CodecCut.CutText | src/common/encoder.go:144-155 | a text cut behind its length keeps it, with zero bytes for what is gone; cut in its length it is empty |
| CodecCut.EmptyIsZero | src/common/encoder.go:78-177 | every type decodes from nothing to its zero value |
| Wire.DispatchIsRight | src/net/multipack.go:386-394 | a state takes 13 bytes and a data message at least 41, and each decodes to what was sent |
| Wire.DatagramSize | src/net/multipack.go:53-55 | a full fragment makes a 1032-byte datagram with the literal header constant, exactly 1024 if `SendTime` is counted |
| Wire.TruncationExact | src/net/p2p.go:46-47 | a message survives the 1024-byte read intact if and only if its payload has only zeros after its first 979 bytes |
| Wire.PacketSurvivesExact | src/net/multipack.go:47-55 | through three layers and the truncating read every packet of at most 889 payload bytes arrives as it was sent; a longer one does if and only if only zeros are cut off its net message, never if the last byte of the TTL is not zero |
| Wire.ValueDeterminesPacket | src/net/multipack.go:32-51 | the wire value determines the packet up to its time stamp |
| WireLayout.PacketLayout | src/net/multipack.go:32-51 | the offset, width and content of each field of a state and of a data packet, and where the payload is |
| WireLayout.NetLayout | src/net/net.go:21-27 | the same for the net message: ids, kind, length, payload, time to live |
| WireLayout.P2PLayout | src/net/p2p.go:37-44 | the same for the p2p message with empty digest and signature |
| Blinding.FixedWidthCancels | src/worker/session.go:142-147 | fixed-width adding and subtracting cancel for all answers and keys |
| Blinding.LiteralBlindingExact | src/worker/session.go:142-147 | the literal form cancels if and only if answer >= 2^152 and either no carry leaves 160 bits or key - answer = (answer + key) / 256 |
| Blinding.LiteralBlindingExamples | src/worker/session.go:142-147 | both ways it fails, and the carry that cancels |
| Blinding.VectorCancels | src/master/session.go:171-175 | the same for whole answer vectors |
| BlindingBytes.FixedWidthAdds | src/worker/session.go:142-147 | the fixed-width form adds the bytes of the key to those of the answer with carry, from the last to the first, and drops the last carry |
| BlindingBytes.OneKeyEach | src/worker/session.go:142-147 | for a fixed answer every 160-bit value is the blinded answer under exactly one key |
| BlindingBytes.First20Exact | src/worker/session.go:146 | the first twenty bytes of the minimal big-endian form, or a panic exactly if there are fewer |
| BlindingBytes.MinimalLengthIs | src/worker/session.go:142-147 | the literal form takes those of the sum, and to unblind those of the absolute difference |
| Blinding.BlindInPlace | src/worker/session.go:142-147 | the loop over the array computes the blinded vector in place |
| Vote.TallyOverEveryRun | src/master/session.go:145-205 | in every run `answerCnt` is the number of SUBMITTED peers, each worker counts once, every unit's counts are those of the submissions, and the kept answer attains the maximum |
| Vote.SumsAreAnswerCnt | src/master/session.go:171-188 | the counts of each unit sum to `answerCnt` |
| Vote.DecidesExactly | src/master/session.go:190-202 | a submission makes the master decide if and only if enough answers are in and some vector has a strict majority in every unit with counts below 2^31; it announces that vector, which is the only one |
| Vote.DecisionsOverEveryRun | src/master/session.go:131-208 | the announcements of a whole run are exactly those of a reference definition over the accepted submissions |
| Vote.CanTerminateExact | src/master/session.go:192-197 | for fewer than 2^32 submissions the uint32 test succeeds if and only if some vector has a strict majority in every unit and every best count is below 2^31 |
| Vote.DoublingExact | src/master/session.go:193 | for every count and every larger total, doubling in uint32 answers "more than half" rightly if and only if the count is below 2^31 |
| Vote.MajorityUnique | src/master/session.go:190-202 | at most one vector has a strict majority in every unit |
| Vote.DecisionIgnoresOrder | src/master/session.go:164-205 | the majority vector does not depend on the order of submissions |
| Vote.HonestSubmission | src/worker/session.go:140-148 | a worker that blinds the true vector with its key is counted for the true vector |
| Vote.HonestMajorityWins | src/master/session.go:164-202 | if more than half of the submissions are the true vector and enough are in, the master announces it |
| VoteRuns.AdmittedExactly | src/master/session.go:145-163 | over every run: a worker takes part if and only if some event was its own offer for this task of this master while the session was open; its key is that of its first such offer, and it is waited for until it answers |
| VoteRuns.AcceptedExactly | src/master/session.go:164-188 | an event adds a submission if and only if it is the first answer of such a worker while the session is open; it is that answer unblinded with that key, if it has values for no more units than there are |
| VoteRuns.SubmissionsAre | src/master/session.go:164-188 | so the whole history the tally is measured against is told by the events |
| VoteRuns.EndsExactly | src/master/session.go:131-208 | over every run: which event closes the session, which makes it panic, and the state it is in until then |
| VoteRuns.HonestWorkersWin | src/master/session.go:131-208 | over a run: if more than half of the submissions are first answers with the true vector, blinded with the key of the first offer of their worker, and enough are in, the last announcement is the true vector |
| Vote.SubTaskSession.SubmitAnswer | src/master/session.go:164-205 | the event handler computes the session function |
| Vote.SubTaskSession.TallyAnswers | src/master/session.go:171-188 | the tally loop over the three slices computes the tally, or stops where the source panics |
| Vote.SubTaskSession.MayTerminate | src/master/session.go:191-197 | true exactly if every unit passes the test |
| Vote.SubTaskSession.AcceptWorker | src/master/session.go:145-163 | computes the acceptance step: once, with its key; over runs see `VoteRuns.AdmittedExactly` |
| Worker.AtMostOnce | src/worker/session.go:93-163 | in every run from the start: at most one response, execution and submission; a response exactly if some step is the first, while open, to validate a contract of the master, and the task worked on is that of such a step; a submission exactly if the answers of the execution arrive while open, and it is those answers blinded with the key of the first meta that fits that contract |
| Worker.ExecutesExactly | src/worker/session.go:129-137 | over a run: an execution starts if and only if, in this order and while open, a contract is validated, a meta for it arrives and a purchase result arrives with the first key group stored; it panics there if and only if that group is not stored, and later if and only if the answers of the execution cannot be blinded |
| Worker.WorkerSession.OnEvent | src/worker/session.go:93-163 | the event loop computes the phase machine, the blinding loop included |
| FileIndex.IndexesMirror | src/fs/fs.go:207-252 | in every reachable state the two indexes name the same pairs, stored files are exactly those with an entry, and without a panic both say exactly which shares finished and which packs arrived |
| FileIndex.TrackerReplyExact | src/fs/fs.go:284-307 | a tracker names for a group exactly the peers that finished a share of one of its keys |
| FileIndex.OnlyUnknownKeysPanic | src/fs/fs.go:190-311 | if share results belong to shares that were started, their lookups never fail: a run of the event loop panics if and only if at some step a share is started, or a purchase requested by a peer, for a key that is not stored |
| FileIndex.StoredExactly | src/fs/fs.go:144-154 | after any run a file is stored if and only if it was handed to the store before any panic; its data and owner are those of the first time |
| FileIndex.ShareReportedAgain | src/fs/fs.go:207-228 | a share that is reported twice changes nothing the second time |
| FileIndex.AddedTwice | src/fs/fs.go:207-228 | adding peers in portions adds them all, so the order of the map does not matter |
| FileIndex.NaiveFS.SetWithInfo | src/fs/fs.go:144-150 | writes store and index together, once per key |
| FileIndex.NaiveFS.Set | src/fs/fs.go:152-154 | writes once, with no peers |
| FileIndex.NaiveFS.OnShareResult | src/fs/fs.go:207-229 | the nested loops over peers and keys, in any order, credit every finished peer with every key in both indexes, or panic |
| FileIndex.NaiveFS.CreditPeer | src/fs/fs.go:209-227 | one finished peer and all keys |
| FileIndex.NaiveFS.OnShareRecv | src/fs/fs.go:236-251 | records which keys came from which peer |
| FileIndex.NaiveFS.TrackerReply | src/fs/fs.go:284-309 | one list per group, each naming every holder of one of the keys exactly once |
| ShareSessions.CounterExact | src/fs/share.go:81-91 | after any events the counter is the number of unfinished peers if and only if no peer is listed twice, it is zero exactly if none is missing, data goes to each peer at most once, and the number of reports is determined |
| ShareSessions.FinishedExact | src/fs/share.go:127-166 | a peer is FINISHED if and only if it accepted and a later send to it succeeded while the session was open |
| ShareSessions.RecordedExactly | src/fs/fs.go:207-228 | a share result enters a pair into the indexes if and only if the key was shared and the listed peer accepted and was sent the data while the share was open |
| ShareSessions.ShareSession.constructor | src/fs/share.go:75-98 | every listed peer starts in SHARE_ST |
| ShareSessions.ShareSession.Step | src/fs/share.go:127-177 | the event loop computes the share function |
| ParallelPurchase.PurchasesOverEveryRun | src/fs/tracker.go:101-162 | for distinct first keys, in every run: the counter is the number of groups not PURCHASED, a group has one outstanding purchase from one of its candidates exactly while PURCHASING, purchases never exceed the tracker entries received, and success is announced once, when all are PURCHASED |
| ParallelPurchase.StepKeeps | src/fs/tracker.go:134-170 | every step keeps that, an UNKNOWN group has no candidate left, and PURCHASED is permanent |
| ParallelPurchase.PendingGroup | src/fs/tracker.go:144-146 | an outstanding purchase is the only one of its group, and its result is matched to that group |
| PurchaseCandidates.CandidatesExact | src/fs/tracker.go:101-162 | for distinct first keys, in every legal run: the candidates of a group are exactly the peers that some reply listed for it and from which no later result of it came; it is PURCHASED if and only if one of its purchases succeeded; nothing counts after the session closed |
| PurchaseCandidates.RetryExact | src/fs/tracker.go:143-162 | when a purchase of a group fails and such a peer is left, one of them is asked next for the same group; if none is left, or after a success, nobody is |
| PurchaseCandidates.ReplyAsksExactly | src/fs/tracker.go:101-142 | a reply makes the session ask, in order, the first peer listed for each group that waits for nothing and has a list, and nobody else; one of the wrong length is ignored |
| PurchaseCandidates.StepExact | src/fs/tracker.go:101-168 | what each event asks for, and what it does to the candidates and the state of each group |
| ParallelPurchase.ParalleledPurchaseSession.UpdatePeers | src/fs/tracker.go:101-113 | the two loops compute the reply step; whom it asks and which candidates it adds is in `PurchaseCandidates` |
| ParallelPurchase.ParalleledPurchaseSession.HandleResult | src/fs/tracker.go:143-162 | computes the result step, for some remaining candidate |
| ParallelPurchase.ParalleledPurchaseSession.Stop | src/fs/tracker.go:163-168 | the timer and control cases announce failure and end the session |
| ParallelPurchase.ParalleledPurchaseSession.FindGroup | src/fs/tracker.go:144-145 | the first group with that first key, or the panic on an empty group before it |
| PurchaseSuccess.SuccessIsSoundExactly | src/fs/tracker.go:143-153 | success is announced only when all groups are PURCHASED, in every run, if and only if the first keys differ |
| PurchaseSuccess.SharedKeyFails | src/fs/tracker.go:143-153 | for every file description with a shared first key, a run that announces success too early |
| PurchasePanics.PanicsExactly | src/fs/tracker.go:115-145 | for every file description: some legal run panics if and only if some group has no size, no hash or no keys |
| PurchasePanics.DefectPanics | src/fs/tracker.go:115-145 | for every such description, a run that panics |
| PurchaseStore.CheckExact | src/fs/purchase.go:95-107 | a pack matches if and only if its keys are a prefix of those requested and it has data for each; what is hashed is that data; the check panics if and only if the keys are right as far as there is data and a requested key, and go on |
| PurchaseStore.OnPackExact | src/fs/purchase.go:90-119 | a pack from the right peer panics the purchase if and only if it overruns; it succeeds if and only if its keys are a prefix of those requested with data that has the hash, and only then anything is written |
| PurchaseStore.PutAllExact | src/fs/purchase.go:110-112 | the writes leave every file that was there and give each new key the data at its first place in the pack, under the given owner, without peers |
| PurchaseStore.ReadBackExact | src/fs/purchase.go:110-112 | after the writes a pack reads back if and only if neither the store nor the pack contradicted it |
| PurchaseStore.SuccessStores | src/fs/purchase.go:108-113 | a successful purchase of absent, distinct keys leaves data with the requested hash under as many of them as the pack had |
| PurchaseStore.SuccessIsComplete | src/fs/purchase.go:97-113 | such a purchase leaves all requested keys in the store if and only if its pack had them all |
| PurchaseStore.EmptyFileLeftOut | src/fs/purchase.go:97-113 | for every hash function, a pack without the key of an empty last file succeeds and leaves that key out |
| PurchaseStore.SaleCopies | src/fs/purchase.go:163-178 | a seller gets to send a pack if and only if it stores all requested keys; the pack is accepted if and only if the stored data has the requested hash, and then the buyer holds what the seller holds unless it held something else |
| PurchaseStore.SellSession.Start | src/fs/purchase.go:163-178 | the loop packs the stored data of all keys, or panics on an unknown one |
| PurchaseStore.PurchaseSession.OnData | src/fs/purchase.go:90-119 | checks, writes and reports exactly once; a pack from another peer changes nothing, a panic writes nothing |
| PurchaseStore.PurchaseSession.CheckPack | src/fs/purchase.go:95-107 | the check loop, with its two panics |
| PurchaseStore.ShareRecvSession.OnData | src/fs/share.go:262-281 | stores the pack and reports true exactly if the joined data has the announced hash |
| StoredSuccess.SuccessMeansStored | src/fs/tracker.go:143-152 | for groups without common or repeated keys that were absent: once success is announced every group has stored data with its requested hash under its first keys, under all of them if packs are complete, whatever trackers, peers, timers and other writers do |
| StoredSuccess.SuccessLetsWorkerExecute | src/worker/session.go:129-137 | after a success announced with complete packs a worker that was waiting for it executes and does not panic |
| StoredSuccess.WorkerNeedsCompletePack | src/worker/session.go:129-137 | after a successful purchase of its first group the worker executes if and only if the pack had all keys, and panics otherwise |
| StoredSuccess.SysStepKeeps | src/fs/purchase.go:87-128 | every step keeps: keys absent until the group is bought and stored rightly from then on, each report is of a purchase that waits for it |
| StoredSuccess.LiveGroup | src/fs/purchase.go:87-128 | while a purchase session runs its group is not bought, its keys are absent, and nothing was reported for it |
| SaleProgress.OneSellerSuffices | src/fs/tracker.go:75-170 | if one peer stores all requested files with the requested hashes, a legal run leads from the start to an announced success, with every file copied from that peer |
| SaleProgress.SellOne | src/fs/purchase.go:87-128 | whenever a group waits for such a peer, its pack and the report that follows buy the group, and leave all others waiting as before |
| KadDistance.GetKDist | src/net/kad.go:37-53 | the two loops return the distance |
| KadDistance.DistExact | src/net/kad.go:37-53 | the distance is the one number with a differing bit just below it and none above |
| KadDistance.DistIsBitLength | src/net/kad.go:37-53 | it is the bit length of the little-endian exclusive or |
| KadDistance.Symmetric | src/net/kad.go:37-53 | symmetric |
| KadDistance.ZeroExact | src/net/kad.go:37-53 | zero if and only if the ids are equal |
| KadDistance.Ultrametric | src/net/kad.go:37-53 | of three distances the two largest are equal |
| Kademlia.TableIsMap | src/net/kad.go:55-101 | after any run of the server from the empty table, `Get` answers like the map from peers to handlers that the run describes, each handler in its bucket, each peer once |
| Kademlia.GetIsSearch | src/net/kad.go:61-81 | `Get` and `Has` answer as a search of all handlers would |
| Kademlia.UpdateRemoveFlat | src/net/kad.go:83-101 | `Update` permutes the handlers, `Remove` takes out exactly the one `Get` would find |
| Kademlia.GetKExact | src/net/kad.go:103-114 | the first min(K, total) handlers (all for K = 0) from the target's bucket downward; those of the first bucket are nearer to the target than this node, none is farther |
| Routing.GetKAt | src/net/kad.go:103-114 | the place of every handler in the result: bucket by bucket from the target's downward, in the order of the bucket, until there are K |
| Routing.MovesToFront | src/net/kad.go:83-101 | `Update` puts the handler of the peer in front of its bucket, `Remove` takes it out; the others keep their order, other buckets are not touched |
| Routing.BucketsAreRecent | src/net/p2p.go:197-271 | after any run of the server from the empty table every bucket stands in the order in which its peers were last connected or heard from, latest first |
| Kademlia.StepKeeps | src/net/p2p.go:197-271 | every step of the server keeps handlers in their buckets and peers without repeats |
| Kademlia.BucketCountExact | src/net/kad.go:29 | with 160 buckets each of the five operations on an id panics if and only if the top bits of the last bytes differ; with 161 none does |
| Kademlia.RunPanicsExactly | src/net/p2p.go:197-271 | with 160 buckets a run of the steps that change the table panics if and only if one of them names such an id |
| ServerRuns.ServerPanicsExactly | src/net/p2p.go:157-271 | a run of the server loop with its sends, from the empty table, panics if and only if some step names an id whose top bit differs (160 buckets), or a send names a peer for which the steps before it left no handler (while the handler's state is logged), static peers included |
| ServerRuns.RepairedNeverPanics | src/net/p2p.go:157-271 | with 161 buckets and the log line after the nil test no run of the server loop panics |
| Kademlia.EnoughBuckets | src/net/kad.go:29 | with 161 buckets no run of the steps that change the table panics |
| Kademlia.KadDHT.InsertHandler | src/net/kad.go:55-59 | puts the handler at the front of its bucket |
| Kademlia.KadDHT.GetHandler | src/net/kad.go:61-71 | the first handler of that peer |
| Kademlia.KadDHT.Touch | src/net/kad.go:83-91 | moves that handler to the front |
| Kademlia.KadDHT.RemoveHandler | src/net/kad.go:93-101 | removes that handler and no other |
| Kademlia.KadDHT.Nearest | src/net/kad.go:103-114 | the two loops compute the K nearest, all of them for K = 0 |
| Flooding.FloodTerminates | src/net/p2p.go:157-254 | one `Send` causes at most c + c^2 + ... + c^(TTL+1) transmissions and as many steps, in any topology that may change at every step, where c bounds the fan-out; every answer to a connection message that arrives adds at most the same sum for a fresh TTL |
| Flooding.AnswerPays | src/net/p2p.go:215-231 | what one such answer sends is within the bound of a new message |
| Flooding.ArrivalPays | src/net/p2p.go:248-253 | an arriving copy pays for all it causes out of its own bound |
| Flooding.FanOut | src/net/p2p.go:157-176 | one `send` makes at most K copies, the size of the table for K = 0, and one for a static peer |
| Flooding.LiteralSendExact | src/net/p2p.go:162-163 | `send` fails if and only if there is no handler for the destination or its bucket is missing |
| Routing.TargetsExact | src/net/p2p.go:157-176 | who gets a copy: the destination alone if its handler is ready; else the destination alone if it is a static peer; else exactly the peers to which the nearest handlers are connected, as often and in the order of `GetK`; a panic exactly without a bucket, or without a handler while its state is logged |
| Routing.ArriveExact | src/net/p2p.go:208-254 | an arriving copy for somebody else with time to live is sent on to exactly those peers, one copy each, the same message with one less; in all other cases nothing is sent |
| Routing.AnswerExact | src/net/p2p.go:215-231 | an answer to a connection message goes to exactly those peers with a fresh time to live |
| Flooding.P2PServer.Send | src/net/p2p.go:157-176 | computes the targets of a message, who these are is in `Routing.TargetsExact` |
| Flooding.P2PServer.Forward | src/net/p2p.go:208-254 | moves the sender to the front and sends the message on with one less TTL; succeeds if and only if neither the lookup of the sender nor, for a positive TTL, the send panics |
| Scheduler.FinishKeeps | src/master/scheduler.go:41-51 | finishing a subtask once keeps every `InDeg` equal to its unfinished predecessors, without underflow, and reports the end exactly at the last one |
| Scheduler.SomeReady | src/master/scheduler.go:33-54 | until all are finished some unfinished subtask of an acyclic graph is ready |
| Scheduler.ScheduleExact | src/master/scheduler.go:67-86 | in every legal order the counters stay exact and completion is reported exactly when everything was run |
| Scheduler.PredecessorsFirst | src/master/scheduler.go:33-54 | in every legal order each subtask runs after all its predecessors |
| Scheduler.CanComplete | src/master/scheduler.go:33-54 | from every reachable state of an acyclic graph a legal order of the rest exists |
| Scheduler.CompletesExactly | src/master/scheduler.go:33-54 | from the initial counters a legal order of all subtasks exists if and only if the graph is acyclic |
| Scheduler.Task.Schedule | src/master/scheduler.go:33-54 | the loop over shared subtask objects computes the counter step |

## Left out

- Links.StoreExact: for fragments and states that lag by less than 2^32 minus the queue size. Sequence numbers of 32 bits cannot tell staler ones apart; `Links.StaleStoredExact` shows that the bound for fragments is exact, and `Links.StaleSyncExact` exactly when a staler state oversteps the receiver.
- Links.StaleSyncExact: for states from up to one period ago; which retransmit timers such a state stops is not stated.
- TransportTheorems.EndToEndSafety: messages of fewer than 2^32 fragments. Beyond that the conversion of the count to uint32 is not defined by Go.
- Completion.CanComplete: a continuation exists; that the network lets it happen is not claimed, which needs assumptions on the network and the clocks.
- Stalls.StallReachable: with a sender's queue larger than the receiver's a stall needs a packet to be lost for good or to grow stale by almost 2^32; the model keeps every packet, so `Stalls.LargerWindowHasAck` says what is true there.
- Vote.DecidesExactly: fewer than 2^32 submissions; beyond, `answerCnt` itself wraps.
- Vote.DecisionsOverEveryRun: later submissions are still tallied and may be announced again, as in the source, so an answer is not claimed to stay fixed after TERMINATING.
- ParallelPurchase.PurchasesOverEveryRun: for non-empty groups with a size and a hash each; for others some run panics (`PurchasePanics.PanicsExactly`), and nothing is claimed after that.
- PurchaseCandidates.CandidatesExact: for groups with distinct first keys; with a shared one the results of a group count for the first such group (`PurchaseSuccess.SharedKeyFails`).
- SaleProgress.OneSellerSuffices: a run exists; that the tracker answers and the timers leave enough time is not claimed.
- StoredSuccess.SuccessMeansStored: the keys of the groups are written by these purchases only. A second purchase or a share of the same keys at the same time may write other data first.
- FileIndex.NaiveFS.SetWithInfo: the source stores a pointer to the info; both callers pass a new one, so the model keeps values, and aliasing of infos is not modelled.
- ShareSessions.CounterExact: for fewer than 2^32 peers. The result carries the live map of states; the model passes its value.
- FileIndex.OnlyUnknownKeysPanic: the panics of the event loop. Those of the purchase and receive sessions on malformed packs are in `PurchaseStore`.
- Codec.DecodeTypes: floats are carried as bit patterns. Channel values, inner pointers, maps, struct fields that are not exported and `GobNetEncoder` are not modelled.
- Worker.AtMostOnce: the signature check of the source accepts everything and is not modelled.
- The round-trip and congestion-window estimators: they are parameters of `syncState` (which fragments are due, how long the waiting list may grow).
- Channel capacities and blocking, goroutine scheduling inside one step, and the order in which separate goroutines hand assembled messages over: steps are atomic and messages are handed over in order.
- SHA-1 and the generation of keys: functions and parameters; nothing is assumed about collisions.
- UDP sockets, address discovery, handler pools, connection set-up and ping timers.
- Ids of file sessions and the routing of their results to the callers' channels.
- `Schedule` with no finished subtask and `InitalizeTask`: their loops have no effect. The scheduler's `Tasks` map is never built, so its first write panics.
- The contract simulator, executer stub, signing stub, network emulator and logging.
