# Verified models of fluxor-runtime

This project models six stateful parts of fluxor-runtime in Dafny and proves what
they are for.

* **AF_XDP ring consumer** (`MachineWords`, `Ring`, `Frames`, `Checksum`). A
  `u32_ring` with wrapping counters and stale cached copies is proved to be an
  unbounded first-in first-out queue (`Fifo`). The main loop and the kernel are a
  state machine over four such queues, one shared-memory access per step; in every
  interleaving each of the 2048 seeded frames is in exactly one place, and the
  branches for a full fill or tx ring are dead. The Internet checksum with deferred
  carries is proved equal to the one's complement sum of section 1 of RFC 1071, and
  headers carrying it verify at the receiver (section 3.1 of RFC 791, RFC 768).
* **Mini-redis over the TCP layer and the epoll loop** (`Resp`, `Store`,
  `ShardedStore`, `SharedStore`, `History`, `Connections`, `Server`). The RESP parser is stable
  under more input, undoes the client's encoder, and gives the same commands however
  the stream is cut. The 256-shard store with lazy erasure answers as one flat map,
  and answers each key as a flat map would also where operations of several workers
  overlap in time on different shards.
  One worker thread is a class whose methods are the callbacks of all three layers;
  after any sequence of accept, read, write and error events no connection is
  stranded, commands are the greedy parse of the bytes received, the bytes sent are a
  prefix of the replies owed. What recv and send return is an argument of each event,
  and what the event receives, what its socket takes, and exactly when it closes the
  connection are stated in terms of these; a wake-up with nothing to read closes it.
* **Append-only log** (`LogCodec`, `LogReader`, `LogWriter`, `Appenders`,
  `AppendLog`). Scans, range reads, rotation, crash and recovery; any number of
  concurrent appenders against one flusher; and both joined, so that a crash at any
  moment of a run, or a read without a lock that takes one file after the other while
  the run goes on, is related to what was appended.
* **Inverted index** (`TextIndex`). Search by postings equals scanning the raw text.
* **Supervisor** (`Supervisor`). The sliding restart window, and when the result
  channel can block the goroutine that reads it.
* **Least-squares trend** (`Trend`). Over reals: the denominator, affine data,
  monotone data, and what the anomaly switch makes of them.

Where a property that one might expect does not hold, a lemma names the input and
another gives the condition under which it does:

| expected | fails | holds |
|---|---|---|
| a key set with a time to live is readable exactly until its deadline | `FlatStore.HugeExpiryIsShort` | `FlatStore.ExpiryIsKeptExactlyWhen` (if and only if) |
| records appended after recovery are found | `LogCodec.OneIsLost`, `LogCodec.TornTailSwallowsAppends` | `LogReader.AppendsAfterRecovery` (if and only if) |
| the next offset is above all recovered ones | `LogReader.NextOffsetWraps` | `LogReader.NextOffsetIsFreshWhen` (if and only if) |
| Read returns the first records from an offset on | `LogReader.ReadOutOfOrderSkips` | `LogReader.ReadIsExactWhen`, `LogReader.ReadIsExactInSequence` (if and only if) |
| records are written in offset order | `Appenders.OverlapMayReorder`, `Appenders.ConcurrentAppendsMayReorder` | `Appenders.OrderIsKeptExactlyWhen` (if and only if) |
| a session with a QUIT closes after its reply | `Server.Worker.QuitCutShortStays`, `Server.QuitCutShort` | `Server.Worker.OnRead` (if and only if) |
| a connection is closed only for what its client did | `Server.Worker.SpuriousWakeupCloses` | `Server.Worker.ProcessConnEvent` (if and only if) |
| the supervisor never blocks on its own channel | `ResultChannel.AllForOneMayBlock`, `ResultChannel.BlockedForEver` | `ResultChannel.BlocksExactlyWhen` (if and only if) |
| a window of the restart length, both ends included, holds at most the allowed restarts | `RestartLimit.ClosedWindowMayHoldMore` | `RestartLimit.ClosedWindowsKeptExactlyWhen` (if and only if) |

Where code and comments disagree the code is followed. The comment on the mini
protocol's response (base/cpp_server/afxdp_ring_consumer.c, line 39) gives it 12
bytes, the packed struct has 13; no statement here depends on it. The contract in
pkg/appendlog/store.go has offsets increase monotonically per store; the counter
does, the order of records on disk need not, which is what `LogReader.Kept` and
`Appenders.Serialised` are about.

The environment enters as arguments or as free choice: socket calls return any
result they may, the clock is a non-decreasing sequence of readings, `bufio` writes
out any number of its oldest bytes at any time, and a crash keeps any byte prefix
that reaches at least to the last sync.

## Model

| member | source | states |
|---|---|---|
| `MachineWords.DistanceSurvivesWrap` | base/cpp_server/afxdp_ring_consumer.c:89 | the 32-bit difference of two wrapped counters is their true distance whenever that is below 2^32 |
| `MachineWords.AddSurvivesWrap` | base/cpp_server/afxdp_ring_consumer.c:97 | advancing a wrapped counter keeps it the low word of the true position |
| `MachineWords.MaskIsMod` | base/cpp_server/afxdp_ring_consumer.c:92 | bitwise and with size - 1 is reduction modulo a power-of-two size |
| `MachineWords.MaskedCounter` | base/cpp_server/afxdp_ring_consumer.c:92 | masking the wrapped counter gives the slot of the unwrapped position |
| `MachineWords.MaskedIndex` | base/cpp_server/afxdp_ring_consumer.c:525 | masking index plus k gives the slot k positions further on |
| `MachineWords.SlotsDistinct` | base/cpp_server/afxdp_ring_consumer.c:492 | positions less than one lap apart never share a slot |
| `Fifo.PeekFindsFront` | base/cpp_server/afxdp_ring_consumer.c:82-99 | a stale consumer view never hides an entry: a peek is empty exactly when the queue is, and releasing what it found drops exactly the front |
| `Fifo.ReserveIsExact` | base/cpp_server/afxdp_ring_consumer.c:101-118 | a stale producer view never refuses room: a reservation is granted in full exactly when queue and new entries fit the ring, and submitting appends them |
| `Ring.ConsumerReading` | base/cpp_server/afxdp_ring_consumer.c:83-89 | the consumer's wrapped subtraction is the true number of entries in its view, also after a refresh |
| `Ring.ProducerReading` | base/cpp_server/afxdp_ring_consumer.c:102-108 | the producer's wrapped subtractions give the true room in its view, also after a refresh |
| `Ring.ReleaseMatches` | base/cpp_server/afxdp_ring_consumer.c:96-99 | releasing keeps all six words in step with the queue across the wrap at 2^32 |
| `Ring.SubmitMatches` | base/cpp_server/afxdp_ring_consumer.c:115-118 | submitting keeps all six words in step with the queue across the wrap at 2^32 |
| `Ring.HoldsRest` | base/cpp_server/afxdp_ring_consumer.c:96-99 | releasing leaves every remaining entry in its slot |
| `Ring.HoldsMore` | base/cpp_server/afxdp_ring_consumer.c:492 | writing one reserved slot disturbs no entry that is queued or staged |
| `Ring.U32Ring.constructor` | base/cpp_server/afxdp_ring_consumer.c:348-368 | a ring of any power-of-two size, its counters starting anywhere, stands for the empty queue |
| `Ring.U32Ring.ConsPeek` | base/cpp_server/afxdp_ring_consumer.c:82-94 | returns as many entries as the refreshed queue grants and the slot of its front |
| `Ring.U32Ring.EntryAt` | base/cpp_server/afxdp_ring_consumer.c:558 | the k-th peeked slot holds the k-th unreleased entry ever submitted |
| `Ring.U32Ring.ConsRelease` | base/cpp_server/afxdp_ring_consumer.c:96-99 | drops exactly n entries from the front of the queue |
| `Ring.U32Ring.RefreshProducer` | base/cpp_server/afxdp_ring_consumer.c:106-108 | loading the consumer counter changes the view and nothing else, and the room computed from it is true |
| `Ring.U32Ring.ProdReserve` | base/cpp_server/afxdp_ring_consumer.c:101-113 | grants n or nothing as the queue's true room decides, and gives the slot behind the last entry |
| `Ring.U32Ring.Stage` | base/cpp_server/afxdp_ring_consumer.c:599 | writing the next reserved slot overwrites nothing that is queued or staged |
| `Ring.U32Ring.ProdSubmit` | base/cpp_server/afxdp_ring_consumer.c:115-118 | appends the first n staged entries to the queue in order |
| `Frames.SeedCount` | base/cpp_server/afxdp_ring_consumer.c:485-495 | the initial fill holds each of the first frames exactly once |
| `Frames.InitInv` | base/cpp_server/afxdp_ring_consumer.c:485-495 | the state after the initial fill satisfies the invariant |
| `Frames.RoomElsewhere` | base/cpp_server/afxdp_ring_consumer.c:485-613 | by counting frames, the four rings together never hold more than one ring's worth |
| `Frames.ReservationsGranted` | base/cpp_server/afxdp_ring_consumer.c:520-554 | every reservation the loop makes on fill or tx is granted |
| `Frames.ReclaimKeeps` | base/cpp_server/afxdp_ring_consumer.c:515-521 | peeking completions and reserving their refill keeps the invariant |
| `Frames.RecycleKeeps` | base/cpp_server/afxdp_ring_consumer.c:524-528 | moving completions to fill conserves frames at every intermediate step |
| `Frames.ReceiveKeeps` | base/cpp_server/afxdp_ring_consumer.c:536-555 | peeking packets and reserving both rings keeps the invariant |
| `Frames.ProcessPacketKeeps` | base/cpp_server/afxdp_ring_consumer.c:557-602 | each packet's frame goes to exactly one of reply and refill |
| `Frames.PacketsReleaseKeeps` | base/cpp_server/afxdp_ring_consumer.c:604 | giving back the rx entries leaves their frames in the user's hand only |
| `Frames.FlushKeeps` | base/cpp_server/afxdp_ring_consumer.c:605-608 | submitting refills and replies conserves frames |
| `Frames.KernelTakesKeeps` | base/cpp_server/afxdp_ring_consumer.c:485-613 | the kernel taking from fill or tx at any moment conserves frames |
| `Frames.KernelDeliversKeeps` | base/cpp_server/afxdp_ring_consumer.c:535-563 | the kernel delivering a packet at any moment conserves frames |
| `Frames.KernelCompletesKeeps` | base/cpp_server/afxdp_ring_consumer.c:514-533 | the kernel completing a transmission at any moment conserves frames |
| `Frames.StepKeeps` | base/cpp_server/afxdp_ring_consumer.c:502-614 | every step of loop or kernel keeps the invariant |
| `Frames.Run` | base/cpp_server/afxdp_ring_consumer.c:485-614 | every state reached by any interleaving satisfies the invariant |
| `Frames.EveryFrameOnce` | base/cpp_server/afxdp_ring_consumer.c:485-614 | in every interleaving each seeded frame is in exactly one of the seven places, no other frame is in any, and none is lost |
| `Frames.FullRingBranchesDead` | base/cpp_server/afxdp_ring_consumer.c:529-601 | in every interleaving the branches for refused reservations and for a full refill are never taken |
| `Checksum.FoldResidue` | base/cpp_server/afxdp_ring_consumer.c:129-132 | folding ends and takes away only multiples of 65535 |
| `Checksum.FoldKeepsResidue` | base/cpp_server/afxdp_ring_consumer.c:129-132 | folding preserves its argument modulo 65535 |
| `Checksum.FoldUnique` | base/cpp_server/afxdp_ring_consumer.c:129-132 | the folded sum is the only 16-bit word with that residue that is zero only for zero |
| `Checksum.FoldedSumIsOnesSum` | base/cpp_server/afxdp_ring_consumer.c:121-132 | adding first and folding once equals the one's complement sum that carries around at every addition |
| `Checksum.ReceiverSumsToOnes` | base/cpp_server/afxdp_ring_consumer.c:129-164 | putting the complement of the sum into a zero field makes the receiver's sum 0xFFFF, also when zero is sent as 0xFFFF |
| `Checksum.CsumFold` | base/cpp_server/afxdp_ring_consumer.c:129-132 | the loop ends with the complement of the fold for every 32-bit sum |
| `Checksum.Ipv4HdrChecksum` | base/cpp_server/afxdp_ring_consumer.c:133-141 | for every header length the result is the complement of the one's complement sum; the running sum never overflows |
| `Checksum.Ipv4HeaderVerifies` | base/cpp_server/afxdp_ring_consumer.c:133-141 | a header with that checksum inserted sums to 0xFFFF at the receiver |
| `Checksum.CsumAddU32` | base/cpp_server/afxdp_ring_consumer.c:124-128 | both halves of the word are added modulo 2^32 |
| `Checksum.PseudoHeaderSum` | base/cpp_server/afxdp_ring_consumer.c:144-148 | the sum after the pseudo header stands for its six words |
| `Checksum.UdpHeaderSum` | base/cpp_server/afxdp_ring_consumer.c:149-151 | the sum after the header stands for all ten head words |
| `Checksum.UdpPayloadSum` | base/cpp_server/afxdp_ring_consumer.c:152-159 | for payloads of any length, odd ones padded with zero, the sum stands for all words modulo 2^32 |
| `Checksum.UdpFold` | base/cpp_server/afxdp_ring_consumer.c:160-163 | the fold at the end, with zero sent as 0xFFFF; the one's complement sum whenever 32 bits held the whole sum |
| `Checksum.UdpChecksum` | base/cpp_server/afxdp_ring_consumer.c:142-164 | for every payload the fold of what 32 bits keep of the sum, and the RFC 768 checksum whenever they keep all of it |
| `Checksum.UdpSumFits` | base/cpp_server/afxdp_ring_consumer.c:142-164 | no datagram up to the UDP size limit makes the 32-bit sum overflow |
| `Checksum.UdpDatagramVerifies` | base/cpp_server/afxdp_ring_consumer.c:142-164 | a datagram with that checksum inserted sums to 0xFFFF at the receiver |
| `Decimal.ParseInt64Ascii` | base/cpp_server/mini_redis_server.cpp:279-294 | the digit loop computes the decimal value with its sign, and fails on exactly the strings that are not one |
| `Resp.ScanCrlf` | base/cpp_server/mini_redis_server.cpp:268-277 | finds the first CR LF from a position on, or none |
| `Resp.ParseBulkString` | base/cpp_server/mini_redis_server.cpp:319-353 | one bulk string is decided as the specification function says, with every protocol error |
| `Resp.ParseBulkStrings` | base/cpp_server/mini_redis_server.cpp:318-354 | the loop over n bulk strings agrees with the recursive specification |
| `Resp.ParseArray` | base/cpp_server/mini_redis_server.cpp:303-358 | the array form agrees with the specification |
| `Resp.SplitInline` | base/cpp_server/mini_redis_server.cpp:366-375 | the nested loops give the blank-separated words of the line |
| `Resp.ParseRespCommand` | base/cpp_server/mini_redis_server.cpp:296-379 | the parser agrees with its specification on every buffer, errors and incomplete input included |
| `Resp.CommandConsumed` | base/cpp_server/mini_redis_server.cpp:296-379 | every accepted command consumes at least two bytes and no more than there are |
| `Resp.CrlfStable` | base/cpp_server/mini_redis_server.cpp:268-277 | a line end once found stays the first one, whatever follows |
| `Resp.BulkStable` | base/cpp_server/mini_redis_server.cpp:319-353 | a decided bulk string stays decided, with the same result, whatever follows |
| `Resp.CommandStable` | base/cpp_server/mini_redis_server.cpp:296-379 | an accepted or rejected command stays so, unchanged, whatever follows |
| `Resp.ResumeTakes` | base/cpp_server/mini_redis_server.cpp:423-445 | dispatching the first command and going on behind it is the greedy parse of the whole |
| `Resp.ResumeStops` | base/cpp_server/mini_redis_server.cpp:425-427 | undecided bytes are all left over |
| `Resp.ResumeBreaks` | base/cpp_server/mini_redis_server.cpp:428-432 | a protocol error or a command without words breaks the stream there |
| `Resp.ResumeJoins` | base/cpp_server/mini_redis_server.cpp:447-466 | leftover bytes with new ones behind them parse as if they had arrived together |
| `Resp.GreedyResumes` | base/cpp_server/mini_redis_server.cpp:415-466 | the greedy parse of a longer stream resumes from the leftover of the shorter one |
| `Resp.QuitThenMore` | base/cpp_server/mini_redis_server.cpp:447-466 | QUIT with the first byte of another command behind it parses to one command and that byte left over |
| `Resp.GreedyStaysBroken` | base/cpp_server/mini_redis_server.cpp:428-432 | a stream with a protocol error never recovers |
| `Resp.ChunkingIsInvisible` | base/cpp_server/mini_redis_server.cpp:415-466 | feeding a stream in any pieces gives the greedy parse of their concatenation: commands, leftover and failure |
| `Resp.RespCmd` | base/cpp_server/bench_miniredis.py:26-33 | joining the pieces gives the array-of-bulk-strings encoding |
| `Resp.BulkRoundTrip` | base/cpp_server/bench_miniredis.py:30-32 | an encoded argument of any bytes, anywhere in a buffer, parses back to itself |
| `Resp.BulksRoundTrip` | base/cpp_server/bench_miniredis.py:29-32 | an encoded list of arguments parses back to itself and ends where the encoding ends |
| `Resp.CommandRoundTrip` | base/cpp_server/bench_miniredis.py:26-33 | an encoded command, whatever bytes it holds and whatever follows, parses back to its arguments |
| `Resp.PipelineRoundTrip` | base/cpp_server/bench_miniredis.py:22-33 | any list of non-empty commands, encoded one behind the other, parses back to exactly that list with no byte left |
| `FlatStore.PurgedView` | base/cpp_server/mini_redis_server.cpp:194-196 | removing what has expired changes no later lookup |
| `FlatStore.DeadlineExactly` | base/cpp_server/mini_redis_server.cpp:143 | a stored deadline means the true one at every later time if and only if the 64-bit sum neither wraps to a non-zero value nor is zero outright |
| `FlatStore.SetThenGet` | base/cpp_server/mini_redis_server.cpp:551-592 | after SET with EX, a GET at any time answers the value exactly while the stored deadline lies ahead |
| `FlatStore.WrappedExpiryIsShort` | base/cpp_server/mini_redis_server.cpp:583 | a time to live that wraps 64 bits by d leaves a key that is gone d milliseconds later |
| `FlatStore.HugeExpiryIsShort` | base/cpp_server/mini_redis_server.cpp:583 | SET with EX 18446744073709552: a GET 384 milliseconds later answers that there is no such key |
| `FlatStore.ExpiryIsKeptExactlyWhen` | base/cpp_server/mini_redis_server.cpp:551-592 | GET answers the value at every later time exactly until the deadline asked for, if and only if that deadline fits 64 bits or wraps to exactly zero |
| `FlatStore.ExecReplies` | base/cpp_server/mini_redis_server.cpp:540-633 | every command gets a non-empty reply |
| `FlatStore.ZeroDeadlineNeverExpires` | base/cpp_server/mini_redis_server.cpp:143 | EXPIRE with 0 seconds at clock reading 0 leaves a key that GET answers at every time |
| `ShardedStore.Store.constructor` | base/cpp_server/mini_redis_server.cpp:62-66 | the empty shards stand for the empty map |
| `ShardedStore.Store.Find` | base/cpp_server/mini_redis_server.cpp:69-76 | a lookup that erases what it finds expired agrees with the flat map without expired keys |
| `ShardedStore.Store.EraseExpired` | base/cpp_server/mini_redis_server.cpp:73-76 | erasing an expired entry changes nothing anybody can see |
| `ShardedStore.Store.Get` | base/cpp_server/mini_redis_server.cpp:68-79 | the value the flat map holds, or none |
| `ShardedStore.Store.Set` | base/cpp_server/mini_redis_server.cpp:81-87 | exactly that key of the flat map is set, value and expiry |
| `ShardedStore.Store.DelOne` | base/cpp_server/mini_redis_server.cpp:203-214 | exactly that key is gone; reports whether it was live |
| `ShardedStore.Store.Del` | base/cpp_server/mini_redis_server.cpp:89-95 | the loop counts each live key once, repeated names included |
| `ShardedStore.Store.Exists` | base/cpp_server/mini_redis_server.cpp:97-107 | true exactly for the keys of the flat map |
| `ShardedStore.Store.TtlSeconds` | base/cpp_server/mini_redis_server.cpp:113-129 | the flat map's remaining time at the second clock reading, with -2 and -1 |
| `ShardedStore.Store.ExpireSeconds` | base/cpp_server/mini_redis_server.cpp:134-145 | the new deadline in 64-bit arithmetic on exactly that key, or 0 if it is not live |
| `ShardedStore.Store.Incr` | base/cpp_server/mini_redis_server.cpp:150-173 | one more than the stored integer, its expiry kept; an error leaves the map alone |
| `ShardedStore.Store.CountExisting` | base/cpp_server/mini_redis_server.cpp:600-604 | the count of EXISTS with a clock reading per key |
| `ShardedStore.Store.DispatchSet` | base/cpp_server/mini_redis_server.cpp:557-592 | SET with its options and errors answers and stores as the flat map |
| `ShardedStore.Store.Dispatch` | base/cpp_server/mini_redis_server.cpp:540-633 | every command, well formed or not, gets the flat map's reply and has its effect: sharding and lazy erasure are invisible |
| `ShardedStore.MergedView` | base/cpp_server/mini_redis_server.cpp:62-66 | the shards as one map show under every key what its shard shows |
| `SharedStore.Perform` | base/cpp_server/mini_redis_server.cpp:68-214 | one operation of one worker, under its shard's lock, has the flat map's answer and effect, and touches no other shard |
| `SharedStore.Serve` | base/cpp_server/mini_redis_server.cpp:68-214 | for operations of several workers that are ordered only within each shard, and overlap in time across shards: the operations on each key are answered, and leave it, as the flat map answers these alone |
| `SharedStore.ServeInOrder` | base/cpp_server/mini_redis_server.cpp:68-214 | operations that do not overlap have all answers and the map of the flat map in that order |
| `SharedStore.PerformAnyTime` | base/cpp_server/mini_redis_server.cpp:68-214 | an operation whose clock readings lie before those of another shard's last one still acts on its shard as on a flat map, and on no other shard |
| `SharedStore.AloneInNext` | base/cpp_server/mini_redis_server.cpp:68-214 | what one operation does to the shards keeps every key as if it were alone |
| `SharedStore.KeysAreIndependent` | base/cpp_server/mini_redis_server.cpp:62-66 | on the flat map, operations that do not overlap are answered key by key as if no other key were ever used |
| `History.SameCallsSameReplies` | base/cpp_server/mini_redis_server.cpp:434-436 | equal commands at equal clock readings give equal reply bytes and equal maps, however sessions are named |
| `History.SameWords` | base/cpp_server/mini_redis_server.cpp:434-436 | if two histories agree but for one session each, and those sessions sent the same commands, they agree altogether |
| `History.OneQuitReply` | base/cpp_server/mini_redis_server.cpp:627-630 | a session whose only command, if any, is QUIT is owed five bytes for it |
| `Connections.PoolAfterClose` | base/cpp_server/tcp_layer.cpp:316-332 | a closed connection is in the free list exactly once and the count goes down by one |
| `Connections.PoolReopens` | base/cpp_server/tcp_layer.cpp:286-295 | reusing the last free connection keeps pool and count right |
| `Connections.PoolGrows` | base/cpp_server/tcp_layer.cpp:296-300 | a new connection keeps pool and count right |
| `Connections.ActiveCounted` | base/cpp_server/tcp_layer.cpp:184-196 | the counter is the number of active connections |
| `Connections.InterestOfOne` | base/cpp_server/event_loop_epoll.cpp:118-128 | changing one descriptor's interest leaves every other connection armed |
| `Connections.FdsAfterClose` | base/cpp_server/event_loop_epoll.cpp:200-205 | unregistering a descriptor leaves every other connection armed and no stale interest |
| `Connections.ArmQuiet` | base/cpp_server/event_loop_epoll.cpp:130-145 | arming the connection that is being handled leaves none stranded |
| `Connections.SetInterest` | base/cpp_server/event_loop_epoll.cpp:118-128 | the cached interest and the kernel's agree whether or not the call was skipped |
| `Connections.Backpressured` | base/cpp_server/tcp_layer.cpp:198-211 | after the check, paused means above the resume threshold and unpaused means below the maximum, and the listener is registered exactly if unpaused |
| `Connections.OpensReused` | base/cpp_server/tcp_layer.cpp:286-295 | accepting into a pooled connection: nothing of its earlier session is left |
| `Connections.OpensNew` | base/cpp_server/tcp_layer.cpp:296-300 | accepting into a new connection keeps all others as they were |
| `Server.BatchBegins` | base/cpp_server/tcp_layer.cpp:440-448 | new bytes behind the leftover make the buffer the unparsed rest of the stream |
| `Server.BatchTakes` | base/cpp_server/mini_redis_server.cpp:434-438 | one dispatched command keeps the buffer the unparsed rest and the replies complete; also when these no longer fit, no command or reply is made up |
| `Server.BatchBreaks` | base/cpp_server/mini_redis_server.cpp:428-432 | at a protocol error, all commands before it are dispatched and nothing but first replies to them is submitted |
| `Server.BatchDefers` | base/cpp_server/mini_redis_server.cpp:447-466 | deferring replies and compacting the buffer loses neither replies nor bytes |
| `Server.BatchFlushes` | base/cpp_server/mini_redis_server.cpp:468-476 | submitting deferred and new replies together leaves none owed |
| `Server.Compacted` | base/cpp_server/mini_redis_server.cpp:452-458 | after the shift the buffer starts with exactly the unread bytes |
| `Server.Worker.constructor` | base/cpp_server/tcp_layer.cpp:305-314 | a worker with any initial pool starts in the invariant |
| `Server.Worker.RegisterRead` | base/cpp_server/event_loop_epoll.cpp:130-145 | the connection reads with EPOLLIN interest and nothing else changes |
| `Server.Worker.CloseConnection` | base/cpp_server/tcp_layer.cpp:184-196 | the connection is inactive, pooled and unregistered; all others stay armed |
| `Server.Worker.CloseConn` | base/cpp_server/mini_redis_server.cpp:523-527 | the same, and the session's state is forgotten |
| `Server.SendLoop` | base/cpp_server/event_loop_epoll.cpp:153-175 | for any results of send, how many bytes are taken, which of done, would-block and error ended the loop, and which results are left over |
| `Server.SendAll` | base/cpp_server/event_loop_epoll.cpp:153-175 | no more than there is to send is taken, and all of it exactly if nothing else ended the loop |
| `Server.WriteDoneBehind` | base/cpp_server/event_loop_epoll.cpp:280-297 | a write handled after the socket has taken n bytes has taken those and what the handling takes, in order |
| `Server.Worker.RejectWrite` | base/cpp_server/event_loop_epoll.cpp:164-174 | a failed send closes exactly this connection, with the bytes taken before it counted as sent |
| `Server.Worker.TakeWrite` | base/cpp_server/event_loop_epoll.cpp:177-189 | the bytes taken, and what the callback goes on to send, are exactly what the results of send say |
| `Server.Worker.AwaitWrite` | base/cpp_server/event_loop_epoll.cpp:191-197 | the connection stays open, armed for EPOLLOUT, with exactly the bytes taken counted as sent |
| `Server.Worker.RegisterWrite` | base/cpp_server/event_loop_epoll.cpp:147-198 | exactly the bytes that the results of send take are sent; it ends armed for EPOLLOUT, or reading again, or closed if and only if a send failed or QUIT's reply is out |
| `Server.Worker.OnWrite` | base/cpp_server/mini_redis_server.cpp:491-508 | goes on writing as the results of send say, closes after QUIT's reply is out or on an error, or leaves a finished write to the TCP layer |
| `Server.Worker.HandleWriteEvent` | base/cpp_server/tcp_layer.cpp:458-493 | a finished write is reset and reading resumes; it is closed if and only if the result is no byte, a send of the rest failed, or QUIT's reply is out |
| `Server.Worker.SubmitWrite` | base/cpp_server/tcp_layer.cpp:249-268 | what fits the write buffer is submitted, longer data is cut; the socket takes of it what the results of send say |
| `Server.Worker.SafeWrite` | base/cpp_server/mini_redis_server.cpp:529-538 | a reply that fits is submitted whole, a longer one replaced by an error; the socket takes of it what the results of send say |
| `Server.Worker.Dispatch` | base/cpp_server/mini_redis_server.cpp:540-633 | the call is recorded with the reply the flat map gives |
| `Server.Worker.BatchTurn` | base/cpp_server/mini_redis_server.cpp:423-445 | one turn stops on incomplete input, asks to close on an error or too many replies, or takes one command; also when it asks to close, what could be dispatched was, and for this session only |
| `Server.Worker.RunBatch` | base/cpp_server/mini_redis_server.cpp:415-445 | the loop ends and dispatches every complete command in order, all for this session; it asks to close only on a protocol error or more replies than the buffer holds; the quit flag is set if and only if a command was QUIT |
| `Server.Worker.Compact` | base/cpp_server/mini_redis_server.cpp:452-465 | reads on with exactly the unread bytes, or closes exactly because they fill the buffer |
| `Server.Worker.Defer` | base/cpp_server/mini_redis_server.cpp:447-466 | replies are kept for later and nothing is lost; the session will not close after the next write |
| `Server.Worker.StartWrite` | base/cpp_server/mini_redis_server.cpp:478-488 | all replies are submitted whole: the too-large and truncation branches are not reached |
| `Server.Worker.Flush` | base/cpp_server/mini_redis_server.cpp:468-488 | all replies owed are submitted and the socket takes what the results of send say; the session will close after the write if and only if this batch held a QUIT |
| `Server.Worker.OnRead` | base/cpp_server/mini_redis_server.cpp:393-489 | the session is closed if and only if a send of its replies failed, its input cannot be served, or this batch held a QUIT, left no command cut short, and all is sent; unless a command is cut short or the input cannot be served, all replies owed to it are submitted, also when it is closed; one that stays open will close after its replies exactly if this batch held a QUIT and left no command cut short; nothing is submitted while one is |
| `Server.Worker.Serve` | base/cpp_server/mini_redis_server.cpp:393-489 | the invariant holds again, no other connection changes, and a session is closed only on these grounds; one whose send failed is; the same replies are submitted |
| `Server.Worker.Conclude` | base/cpp_server/mini_redis_server.cpp:428-488 | whatever the batch found, replies are deferred, submitted or dropped with the session; it is closed only if a send of its replies failed, its input cannot be served, or it held a QUIT and all is sent; if its input can be served and no command is cut short, all replies owed are submitted, also when it is closed |
| `Server.StillServable` | base/cpp_server/mini_redis_server.cpp:393-489 | a session that is still open has sent nothing that cannot be served, and has bytes to send while it writes |
| `Server.RestOfBatch` | base/cpp_server/mini_redis_server.cpp:447-454 | what a batch leaves unparsed is the rest of the whole stream, all commands before it are dispatched, and what is submitted are first replies to them |
| `Server.RecvLoop` | base/cpp_server/event_loop_epoll.cpp:319-344 | for any results of recv, the bytes read in order and which of no room, end of input, would-block and error ended the loop |
| `Server.RecvAll` | base/cpp_server/event_loop_epoll.cpp:319-344 | no more than the room is read, and without room filled something else ended the loop |
| `Server.SpuriousWakeup` | base/cpp_server/event_loop_epoll.cpp:330-332 | no result of recv, or a first one that would block, reads nothing and is neither end of input nor error |
| `Server.Worker.Recv` | base/cpp_server/event_loop_epoll.cpp:303-344 | there is always room to read into, and the bytes land behind the unread ones in order |
| `Server.Worker.HandleRead` | base/cpp_server/tcp_layer.cpp:440-448 | the bytes are handled to the invariant, with the closing condition and the replies of OnRead |
| `Server.Worker.HandleHangUp` | base/cpp_server/tcp_layer.cpp:449-455 | end of input, error and a recv that would block each close exactly this connection; only an error has the session's state forgotten at once |
| `Server.Worker.HandleArrival` | base/cpp_server/tcp_layer.cpp:440-457 | whatever recv brought, the invariant holds again, and the session is closed if and only if recv failed, ended or would block before any byte, or on the grounds of OnRead; in every case what is submitted are first replies to commands of the stream, and the replies of OnRead if recv brought bytes and did not fail |
| `Server.Worker.ProcessRead` | base/cpp_server/event_loop_epoll.cpp:303-353 | the bytes are those the results of recv give, the replies taken those the results of send take, from the first on; this connection alone changes and only its session dispatches; it is closed if and only if recv failed, ended or would block before any byte, a send failed, its input cannot be served, or its batch held a QUIT, left no command cut short and all is sent; all replies owed are submitted, also when it is closed, unless a command is cut short, recv failed or the input cannot be served |
| `Server.Worker.SpuriousWakeupCloses` | base/cpp_server/event_loop_epoll.cpp:330-351 | a readable event whose first recv would block closes a healthy connection, with nothing received |
| `Server.QuitCutShort` | base/cpp_server/mini_redis_server.cpp:447-466 | a QUIT with the first byte of another command behind it is no ground to close, nor to close after the reply |
| `Server.Worker.QuitCutShortStays` | base/cpp_server/mini_redis_server.cpp:447-466 | after these bytes the session is open, will not be closed for its QUIT, and has been sent nothing |
| `Server.Worker.DrainWrites` | base/cpp_server/event_loop_epoll.cpp:253-301 | exactly the bytes that the results of send take are sent, a second loop after a partial write included, and the invariant of all connections holds again |
| `Server.Worker.ProcessWrite` | base/cpp_server/event_loop_epoll.cpp:252-301 | the bytes sent grow by exactly what the results of send take, and the connection is closed if and only if a send failed or the reply to QUIT is out |
| `Server.Worker.ProcessError` | base/cpp_server/event_loop_epoll.cpp:236-250 | exactly this connection is closed and the invariant holds again |
| `Server.Worker.WriteEvent` | base/cpp_server/event_loop_epoll.cpp:252-301 | a writable event sends exactly what the results of send take, closes the connection if and only if a send failed or the replies to a batch with a QUIT are out, and dispatches nothing |
| `Server.Worker.ReadEvent` | base/cpp_server/event_loop_epoll.cpp:303-353 | the same in terms of the event's arguments, and if the connection stays open it will close after its replies exactly if the batch held a QUIT and left no command cut short |
| `Server.Worker.ProcessConnEvent` | base/cpp_server/event_loop_epoll.cpp:231-354 | for any flags, stale ones included, and any results of recv and send: the flags decide the branch, and each branch does what its own row says, or nothing at all; no other connection changes; this one is closed if and only if an error was flagged, recv failed or ended, a send failed, a read found nothing, its input cannot be served, or a batch held a QUIT and all is sent; if it stays open it will close after its replies exactly if a batch held a QUIT and left no command cut short |
| `Server.Worker.HandleFlags` | base/cpp_server/event_loop_epoll.cpp:231-354 | the branches alone |
| `Server.ClosesWhen` | base/cpp_server/event_loop_epoll.cpp:231-354 | what the branches do adds up to the one closing condition |
| `Server.QuitIsAnswered` | base/cpp_server/mini_redis_server.cpp:468-488 | a session that a readable event closed on no other ground held a QUIT, and every reply owed to it has been sent |
| `Server.ClosingOwesNothing` | base/cpp_server/mini_redis_server.cpp:468-488 | a session that will be closed after its write has every reply owed to it submitted |
| `Server.Worker.Allocate` | base/cpp_server/tcp_layer.cpp:281-303 | the new session starts empty and no other connection changes |
| `Server.Worker.Admit` | base/cpp_server/mini_redis_server.cpp:385-391 | the new session is armed for reading with empty state |
| `Server.Worker.AcceptEvent` | base/cpp_server/tcp_layer.cpp:401-439 | below the maximum exactly one inactive connection becomes a new session, at the maximum none does; the invariant holds again |
| `Server.Worker.Run` | base/cpp_server/event_loop_epoll.cpp:207-354 | after any sequence of accept and connection events the invariant holds, and every one of them led from one moment to the next as its own contract says |
| `Server.Worker.Handle` | base/cpp_server/event_loop_epoll.cpp:207-354 | one event, a connection to accept or flags of a connection, stale ones and unknown connections included, does what it should to the worker as it was |
| `Server.HistoryGrows` | base/cpp_server/mini_redis_server.cpp:434-436 | in a run no dispatched call is undone |
| `Server.ConnectionGuarantees` | base/cpp_server/mini_redis_server.cpp:385-508 | between events every active connection reads with EPOLLIN interest, or writes with EPOLLOUT interest and bytes to send; its commands are the greedy parse of all it sent; the bytes sent are a prefix of the replies owed, and all of them once all input is parsed |
| `Server.SplittingIsInvisible` | base/cpp_server/mini_redis_server.cpp:393-489 | equal bytes received lead to equal commands dispatched, however they were cut into reads |
| `Server.SplittingKeepsReplies` | base/cpp_server/mini_redis_server.cpp:393-489 | and to equal bytes sent, where the workers have otherwise dispatched equal commands at equal clock readings |
| `LogCodec.LeRoundTrip` | pkg/appendlog/fs_store.go:407-408 | little-endian bytes decode to the number encoded |
| `LogCodec.FromLeInverts` | pkg/appendlog/fs_store.go:545-546 | bytes are the little-endian form of the number they decode to |
| `LogCodec.WholeIsEncoded` | pkg/appendlog/fs_store.go:545-558 | the bytes of a complete record are the encoding of what it decodes to |
| `LogCodec.FileSplits` | pkg/appendlog/fs_store.go:490-521 | every file is the encoding of its complete records followed by a tail that is none |
| `LogCodec.FirstOfEncoded` | pkg/appendlog/fs_store.go:407-408 | a record at the front of a segment decodes to itself whatever follows |
| `LogCodec.TornIsNotWhole` | pkg/appendlog/fs_store.go:500-516 | no proper prefix of a record is taken for a record |
| `LogCodec.ScanOfPrefix` | pkg/appendlog/fs_store.go:490-521 | a scan of any byte prefix of a segment finds exactly the complete records |
| `LogCodec.CompleteAtLeast` | pkg/appendlog/fs_store.go:490-521 | records written in full within k bytes are complete in any k bytes |
| `LogCodec.AppendsFoundIfUntorn` | pkg/appendlog/fs_store.go:150-169 | everything appended behind an untorn segment is found |
| `LogCodec.TornTailSwallowsAppends` | pkg/appendlog/fs_store.go:158 | behind a torn record with a whole header, the appended bytes become its data |
| `LogCodec.OneIsLost` | pkg/appendlog/fs_store.go:158 | behind any torn tail and at any offset, two records of one byte that differ in it cannot both be found |
| `LogCodec.AppendsFoundExactlyWhen` | pkg/appendlog/fs_store.go:150-169 | for every file and every next offset, all that Append can hand out from there on is found, if it is written into that file, if and only if the file ends with its last complete record |
| `LogCodec.MaxOffsetBounds` | pkg/appendlog/fs_store.go:517-519 | the maximum bounds every offset and is one of them, or zero |
| `LogReader.ReadRecord` | pkg/appendlog/fs_store.go:537-554 | header and data reads succeed exactly on a complete record and decode it |
| `LogReader.ScanSegmentMaxOffset` | pkg/appendlog/fs_store.go:490-521 | the largest offset of the complete records, for every file |
| `LogReader.ReadSegmentRange` | pkg/appendlog/fs_store.go:523-561 | the first records from an offset on among the complete ones, for every file and limit |
| `LogReader.Read` | pkg/appendlog/fs_store.go:236-262 | the records collected with the limit counting down and the offset moving up, and the error for a bad limit |
| `LogReader.SelectMeaning` | pkg/appendlog/fs_store.go:555-558 | exactly the records from the offset on are selected, given the room |
| `LogReader.KeptIsRead` | pkg/appendlog/fs_store.go:236-262 | if in each segment exactly what was asked for lies at or above where the earlier ones left off, Read returns what was asked for |
| `LogReader.ReadIsKept` | pkg/appendlog/fs_store.go:236-262 | with room for all records Read returns no more of those asked for than there are, and as many only under that condition |
| `LogReader.ReadIsExactWhen` | pkg/appendlog/fs_store.go:236-262 | for every log and offset, wrapped offsets included, Read is exact for all limits if and only if that condition holds |
| `LogReader.KeptIsInSequence` | pkg/appendlog/fs_store.go:236-262 | as long as the last 64-bit offset is not in use, the condition says that every wanted record lies behind the last wanted one of each earlier segment |
| `LogReader.ReadIsExactInSequence` | pkg/appendlog/fs_store.go:236-262 | and so Read is exact for all limits if and only if the offsets are like that |
| `LogReader.IncreasingIsKept` | pkg/appendlog/fs_store.go:236-262 | offsets in increasing order satisfy the condition for every starting offset |
| `LogReader.ReadOutOfOrderSkips` | pkg/appendlog/fs_store.go:257-259 | a record in a later segment behind a higher offset is never returned, whatever the limit |
| `LogReader.Recover` | pkg/appendlog/fs_store.go:123-143 | the next offset is one above the largest offset of all complete records of all segments, in 64 bits |
| `LogReader.NextOffsetIsFreshWhen` | pkg/appendlog/fs_store.go:143 | the next offset is above every recovered one if and only if the last 64-bit offset is not among them |
| `LogReader.NextOffsetWraps` | pkg/appendlog/fs_store.go:143 | after a record with the last 64-bit offset recovery hands out offset 0 |
| `LogReader.AppendsAfterRecovery` | pkg/appendlog/fs_store.go:143-169 | after recovery of any files, with rotation, everything Append hands out is found if and only if the last file had no torn tail, or has no room for a record of one byte, so that every append starts a new file |
| `LogReader.AppendsToUntornFound` | pkg/appendlog/fs_store.go:418-437 | appends behind an untorn file are found, whichever files rotation puts them into |
| `LogReader.AppendsFoundWhen` | pkg/appendlog/fs_store.go:418-437 | the same behind a torn file that every append leaves behind |
| `LogWriter.DiskDecodes` | pkg/appendlog/fs_store.go:123-149 | sealed segments and any prefix of the active one decode to a prefix of the log cut after the last complete record |
| `LogWriter.FsStore.constructor` | pkg/appendlog/fs_store.go:150-169 | a store opened on files without torn tails holds exactly the records found in them |
| `LogWriter.FsStore.BufWrite` | pkg/appendlog/fs_store.go:431-436 | however much of the buffer reaches the file, no byte is lost or reordered |
| `LogWriter.FsStore.NextSegment` | pkg/appendlog/fs_store.go:289-304 | sealing the active file leaves the log as it was |
| `LogWriter.FsStore.RotateLocked` | pkg/appendlog/fs_store.go:282-305 | rotation at any time leaves the log as it was, and with fsync the sealed file is synced |
| `LogWriter.FsStore.WriteHeader` | pkg/appendlog/fs_store.go:431-433 | the log grows by the record while its data is still unwritten |
| `LogWriter.FsStore.WriteData` | pkg/appendlog/fs_store.go:434-437 | the record is completed and the log stays |
| `LogWriter.FsStore.AppendHeader` | pkg/appendlog/fs_store.go:419-433 | rotation if needed, then the header: the log grows by the record, the files by where it belongs, and nothing acknowledged is lost |
| `LogWriter.FsStore.AppendData` | pkg/appendlog/fs_store.go:434-453 | the record is completed; with fsync all of the log is then durable |
| `LogWriter.FsStore.Close` | pkg/appendlog/fs_store.go:324-353 | what was written is flushed, and from then on appends and syncs are refused |
| `LogWriter.FsStore.AppendToDisk` | pkg/appendlog/fs_store.go:400-453 | the log grows by exactly the record, or not at all when closed or too long, and the files are those of an append with rotation; with fsync the record is acknowledged only once synced |
| `LogWriter.FsStore.Acknowledge` | pkg/appendlog/fs_store.go:447-452 | flush and sync make every record so far durable |
| `LogWriter.FsStore.Sync` | pkg/appendlog/fs_store.go:307-322 | the file then holds everything written, unless the store is closed |
| `LogWriter.CrashKeepsAcknowledged` | pkg/appendlog/fs_store.go:123-149 | with fsync, whatever a crash leaves decodes to a prefix of the log holding every acknowledged record; the next offset recovery computes is above all of it if and only if the last 64-bit offset is not in it |
| `LogWriter.ReadSeesPrefix` | pkg/appendlog/fs_store.go:236-262 | at any moment, also between header and data, the files hold a prefix of the log with all acknowledged records, all of it once nothing is buffered; a read of a log in order is the selection from that prefix |
| `LogWriter.CompleteGrows` | pkg/appendlog/fs_store.go:490-521 | more bytes of more records hold no fewer complete ones |
| `LogWriter.FoundBetween` | pkg/appendlog/fs_store.go:241-249 | files listed at one moment, the last of them read at a later one, hold a prefix of the log, no shorter than what was complete then and no longer than what is complete now |
| `LogWriter.ReadBetween` | pkg/appendlog/fs_store.go:236-262 | and a read of any range from them is the selection from that prefix, if the log is in order |
| `Appenders.UpdateKeeps` | pkg/appendlog/fs_store.go:193-227 | what a step of one call must respect for the invariant to hold in every interleaving |
| `Appenders.StepKeeps` | pkg/appendlog/fs_store.go:193-227 | each atomic operation of any call or the flusher keeps the invariant |
| `Appenders.RunKeeps` | pkg/appendlog/fs_store.go:193-388 | every reachable state satisfies the invariant |
| `Appenders.BudgetIsExact` | pkg/appendlog/fs_store.go:193-227 | in every interleaving the counter equals the bytes reserved and not given back, and stays within the budget |
| `Appenders.OffsetsAreUnique` | pkg/appendlog/fs_store.go:207 | in every interleaving no two calls have the same offset, rejected ones included |
| `Appenders.SerialisedWritesInOrder` | pkg/appendlog/fs_store.go:207-388 | if no call takes an offset while another holds one it has not sent, records are written in offset order behind the recovered ones |
| `Appenders.OverlapMayReorder` | pkg/appendlog/fs_store.go:207-219 | whenever two calls hold unsent offsets and the channel has room, the later one can be written first, out of order |
| `Appenders.UnsafeMayReorder` | pkg/appendlog/fs_store.go:207-219 | a state that is not safe has a continuation, without any new offset, that writes out of order |
| `Appenders.OrderIsKeptExactlyWhen` | pkg/appendlog/fs_store.go:193-388 | in every reachable state, all continuations without new offsets write in order if and only if the records are in order now and at most one call holds an unsent offset, above them all |
| `Appenders.ConcurrentAppendsMayReorder` | pkg/appendlog/fs_store.go:207-219 | a run from the initial state that does so |
| `AppendLog.Log.constructor` | pkg/appendlog/fs_store.go:123-174 | the log and the first offset handed out are those of recovery |
| `AppendLog.Log.StepApp` | pkg/appendlog/fs_store.go:193-227 | an atomic operation of a call or the flusher keeps appenders and disk joined |
| `AppendLog.Log.Step` | pkg/appendlog/fs_store.go:193-388 | the same within the whole store, and bytes are given back only after the write; order is kept exactly as long as appenders are serialised |
| `AppendLog.Log.WriteHeader` | pkg/appendlog/fs_store.go:400-433 | the request in hand becomes part of the log, or is refused as too long |
| `AppendLog.Log.WriteData` | pkg/appendlog/fs_store.go:434-453 | it is completed, and with fsync durable |
| `AppendLog.Log.Rotate` | pkg/appendlog/fs_store.go:264-280 | rotating between two writes seals all that is written, and changes no record |
| `AppendLog.Log.Sync` | pkg/appendlog/fs_store.go:307-322 | between two writes nothing stays buffered |
| `AppendLog.Log.Run` | pkg/appendlog/fs_store.go:176-453 | any interleaving of calls, flusher, rotation and sync leaves calls, channel, flusher and written records where the events lead, a function of these and of where they were; order is still kept if and only if it was and no event of the run took an offset while another was unsent; sealed files have not changed and the active one has grown or been sealed |
| `AppendLog.Log.Act` | pkg/appendlog/fs_store.go:176-453 | the same for one step |
| `AppendLog.AfterConcat` | pkg/appendlog/fs_store.go:193-453 | events one after the other lead where all of them lead, and are serialised if each part is |
| `AppendLog.ReadFound` | pkg/appendlog/fs_store.go:236-262 | what a read of files listed at one moment and read until another finds of all that was appended |
| `AppendLog.Log.Collect` | pkg/appendlog/fs_store.go:241-249 | the segments listed, each read at its own moment of a run with these events: the sealed ones as they were, and the last as it is by then |
| `AppendLog.Log.Read` | pkg/appendlog/fs_store.go:236-262 | begun at any moment of a run whose events go on while segment after segment is read: if order was kept and these events are serialised, the selection from the first m records appended, m at least all that were acknowledged, or complete in the files, at the beginning, and at most those complete at the end |
| `AppendLog.CrashInRun` | pkg/appendlog/fs_store.go:123-149 | a crash at any moment of a run with fsync leaves every record that was acknowledged and only a prefix of what was appended, in order again after serialised appends |
| `Words.Tokenize` | pkg/buckey_storage/index.go:36-49 | each lower-case word once, in order of first occurrence |
| `TextIndex.PostingsDetermined` | pkg/buckey_storage/index.go:51-78 | the postings are a function of the stored texts: no history of operations shows |
| `TextIndex.KeysFromSet` | pkg/buckey_storage/index.go:276-285 | each key of the set exactly once |
| `TextIndex.Removed` | pkg/buckey_storage/index.go:66-71 | stripping a key from all terms leaves the index of the other texts, with no empty posting set |
| `TextIndex.Reindexed` | pkg/buckey_storage/index.go:64-77 | adding a key's terms gives the index of the texts with that one replaced |
| `TextIndex.Index.constructor` | pkg/buckey_storage/index.go:27-33 | an empty index of no texts |
| `TextIndex.Index.IndexFullText` | pkg/buckey_storage/index.go:51-78 | a key is in a term's postings exactly when its text has the term, for the new text too; an invalid key changes nothing |
| `TextIndex.Index.Intersect` | pkg/buckey_storage/index.go:119-136 | the keys whose text has every term; nothing if a term is unknown |
| `TextIndex.Index.Search` | pkg/buckey_storage/index.go:107-153 | exactly the keys whose raw text satisfies the OR-of-ANDs query, each once |
| `TextIndex.Index.SearchPrefix` | pkg/buckey_storage/index.go:174-195 | exactly the keys whose raw text has a word with the prefix, each once; none for a blank prefix |
| `TextIndex.Index.RemoveKey` | pkg/buckey_storage/index.go:328-340 | the index is as if the key had never been indexed |
| `RestartLimit.Limiter.AllowRestart` | pkg/actor/supervisor.go:180-191 | true exactly if fewer than the maximum lie strictly within the window before now |
| `RestartLimit.Limiter.RecordRestart` | pkg/actor/supervisor.go:193-197 | recording keeps every restart within its limit |
| `RestartLimit.Limiter.TryRestart` | pkg/actor/supervisor.go:146-154 | check and record, with the clock moving on in between, keep the limit and record exactly the allowed restarts |
| `RestartLimit.AnyWindowIsLimited` | pkg/actor/supervisor.go:180-197 | every window of the restart length, wherever it lies, holds at most the maximum of recorded restarts |
| `RestartLimit.ClosedWindowBound` | pkg/actor/supervisor.go:180-197 | with both ends included a window holds at most twice the maximum, and more than the maximum only with a restart at each end |
| `RestartLimit.ClosedWindowMayHoldMore` | pkg/actor/supervisor.go:183-186 | for every maximum and window, restarts that are all allowed and fill the closed window with twice the maximum |
| `RestartLimit.ClosedWindowsKeptExactlyWhen` | pkg/actor/supervisor.go:180-197 | for every window, all histories that may happen keep closed windows within the maximum if and only if it is zero |
| `ResultChannel.RoomForResult` | pkg/actor/supervisor.go:113 | by counting senders, a child without a result in the channel finds room for one |
| `ResultChannel.RestartsAreLimited` | pkg/actor/supervisor.go:138-197 | in every run of the supervisor, any window of the restart length holds at most the maximum of recorded restarts |
| `ResultChannel.RunKeeps` | pkg/actor/supervisor.go:113-178 | in every run that never restarts all of several children, each child has at most one runner, result or pending start |
| `ResultChannel.OneForOneNeverBlocks` | pkg/actor/supervisor.go:113-164 | in every OneForOne run the goroutine never blocks on its channel, each child has at most one result outstanding, and every runner can send |
| `ResultChannel.AllForOneMayBlock` | pkg/actor/supervisor.go:165-174 | for any two or more children and any limit that allows a restart, an AllForOne run in which it blocks |
| `ResultChannel.FromFullIfBlocked` | pkg/actor/supervisor.go:113-127 | in every run from a state in which the channel is full if the goroutine is blocked, that stays so |
| `ResultChannel.BlockedForEver` | pkg/actor/supervisor.go:113-127 | though a blocked send goes through as soon as there is room, the channel of a blocked run stays full and no continuation changes anything |
| `ResultChannel.BlocksExactlyWhen` | pkg/actor/supervisor.go:113-178 | some run blocks if and only if the strategy is AllForOne, there are two or more children, and at least one restart is allowed |
| `Trend.Accumulate` | load-test/analyzer.go:87-95 | the loop computes the four sums |
| `Trend.CalcTrend` | load-test/analyzer.go:82-101 | the least-squares quotient, or zero below two samples |
| `Trend.DenominatorClosed` | load-test/analyzer.go:96 | for every sample count the denominator is n^2(n^2-1)/12 |
| `Trend.GuardNeverFires` | load-test/analyzer.go:97-99 | from two samples on the guard against a small denominator is never taken |
| `Trend.AffineSlope` | load-test/analyzer.go:82-101 | samples on a straight line have exactly its slope |
| `Trend.NumeratorGrows` | load-test/analyzer.go:96-100 | what one more sample adds to the numerator is a sum of products of differences |
| `Trend.NumeratorNonNegative` | load-test/analyzer.go:100 | samples that never decrease have a numerator of at least zero |
| `Trend.GrowingSlope` | load-test/analyzer.go:82-101 | and a slope of at least zero, for every sample count |
| `Trend.MemoryBounds` | load-test/analyzer.go:32-53 | the memory minimum and maximum bound all samples and are among them; the sum is their sum |
| `Trend.CalculatePhaseStats` | load-test/analyzer.go:17-79 | minimum, maximum, mean, collector count modulo 2^32 and slope of the memory samples, also for none or one |
| `Trend.GrowingRecoveryVerdict` | load-test/analyzer.go:182-243 | a recovery phase that never decreases is never reported as releasing memory, and one above three times the baseline with the collector running always as retained |

## Left out

- Sockets, `epoll_ctl` failures, mmap, BPF and file errors: the environment answers in any way it may, `epoll_ctl` and disk writes succeed.
- Memory ordering: the acquire and release accesses of the ring are taken as sequentially consistent.
- Packet parsing and `craft_udp_response` in base/cpp_server/afxdp_ring_consumer.c: whether a reply is crafted is a free choice of each step; source and destination of the swap alias, so no swap is claimed.
- Frames.Run: assumes that the kernel delivers only descriptors within UMEM, in the chunk it was given; otherwise line 562 of the source drops a frame.
- Frames.KernelTakesKeeps: assumes that the kernel gives a fill entry back when it takes the frame; one that did so only after delivering the packet could make a reservation fail.
- Poll timeouts, statistics and the TX wakeup: they move no frame.
- Decimal.ParseInt64Ascii: does not model 64-bit overflow of the digit loop, because the source leaves it undefined.
- Resp.ParseArray: does not model the exception that reserving room for a huge announced count throws, because memory is not modelled; so does Resp.ParseRespCommand.
- ShardedStore.Store.Incr: does not model an increment at the largest 64-bit value, because the source leaves it undefined.
- Several workers sharing one store: Server.Worker is one worker with a store of its own; SharedStore has the operations of several interleaved, without their connections.
- `TCPConnection` as heap objects: a connection is a value in a list, a pointer its index, so aliasing of two pointers is index equality. `fd_to_conn_` is not modelled, since no modelled code reads it.
- Guards of `on_read` and of the TCP layer that the invariant makes dead, such as a read position beyond the capacity.
- `TCPServer::accept_connection` and the kqueue and io_uring loops: no code path of the epoll server uses them.
- HTTP layer, cache layer and TTL storage: would add easier members, or have no round trip to prove.
- LogWriter.FsStore.constructor: opens files without torn tails only; what becomes of appends behind a torn one is stated by LogReader.AppendsAfterRecovery.
- AppendLog.Log.Run: covers runs in which 64 bits of offsets last; a counter that wraps would hand out offsets again.
- AppendLog.Log.Read: takes a file's bytes at one moment, and covers pauses in which 64 bits of offsets last.
- LogCodec.AppendsFoundExactlyWhen: writes all appends into one file; with rotation the condition is that of LogReader.AppendsAfterRecovery.
- AppendLog.Log.constructor: opens files without torn tails only, as LogWriter.FsStore.constructor does.
- `Close` while calls and the flusher are at work: it marks the store closed before the queue is drained. The observer callbacks.
- Segment file names and ids: segments are a list in id order.
- Words.Tokenize: models ASCII letters, digits and case only, because Unicode tables are not part of this model.
- `SearchPage`, `SearchPhrase`, records and field filters of the index: would add easy members.
- Goroutine and queue statistics of the analyzer: the same loops over other fields.
- Trend.CalcTrend: computes over reals, so rounding is not modelled.
- Command line tools, deployment, handlers, dashboards, event buses and demo applications.
