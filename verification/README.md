# TinyKV, modelled and proved in Dafny

TinyKV is a key-value server that speaks a line protocol, evicts by recency, expires keys, logs and
snapshots its data, streams it to replicas, and is sharded behind a router with automatic failover.
This project models those parts and proves what they promise, for every input and every run.

`dafny verify dfyconfig.toml` checks everything.

## How it is built

One meaning of "execute a command line" is shared by everything else: `Protocol.Parse`, then
`Executor.Exec` over a recency list (`Lru`) and a table of deadlines. Live requests, log replay,
snapshot loading and replica apply are all defined through it, so they can be compared.

| file | part of the server |
|---|---|
| `Text.dfy`, `Numbers.dfy`, `Protocol.dfy` | tokens, lines, decimal numbers, commands and replies |
| `Lru.dfy`, `KvStore.dfy` | the store as a value, and as list nodes plus an index changed in place |
| `Expiry.dfy`, `TtlTable.dfy`, `ExpiringStore.dfy` | the lazy-deletion heap with its sweeper, deadlines next to the store, and the two running together |
| `Executor.dfy`, `Contents.dfy` | command execution, and what it means for the plain map of contents |
| `Snapshot.dfy`, `Durability.dfy`, `BoundedReplay.dfy`, `ExpiredRecovery.dfy`, `LogOrder.dfy` | snapshot, log, crash and restart; with eviction, with fired deadlines, with threads between executing and logging |
| `KeyChanges.dfy` | what a command does to the value under its key, which orders matter, lines executed and not passed on |
| `ServerProcess.dfy`, `Registry.dfy` | the server process and the list of replicas as objects |
| `Replication.dfy`, `StreamOrder.dfy` | register, capture, send, stream, apply; with threads between executing and propagating |
| `Hash.dfy`, `Ring.dfy`, `Failover.dfy` | the hash, the ring, health checks, failover and routing |
| `Framing.dfy`, `Connection.dfy` | chunked reading, partial sends, one reply per request |
| `Counter.dfy`, `ThreadPool.dfy` | counters under concurrency, the worker pool |

Objects the program changes in place are classes (`KVStore`, `ExpiryManager`, `CommandExecutor`,
`Process`, `ReplicaRegistry`, `ConsistentHashRing`, `ShardTopology`, `LineReader`), and their methods are proved equal to
the value functions the theorems are about. Concurrency is a machine whose steps are the program's
locked sections, in any order.

## What the code does not do

Promises of the documentation or of comments that fail in the code. The model keeps the code as it is, shows
a failing input, and states exactly when the promise holds.

- "Reconstructing the dataset exactly as it was" (`docs/PROTOCOL.md:81-83`) fails in five ways.
  - A snapshot restores the data if and only if every entry's `SET` line fits in 8192 bytes
    (`Durability.SaveIsDurableIffAllFit`). A counter with a very long key is lost
    (`Durability.LongCounterKeyIsLost`); counter keys up to 8167 bytes are always safe.
  - A key that expired is not logged as gone: recovery gives the live contents with the keys on top that
    fired and have not been settled by a snapshot, a restart, `SET` or `DEL` since
    (`ExpiredRecovery.RecoveryBringsBackFiredKeys`, `ExpiredRecovery.UndeadIffFiredAndNotSettled`);
    `ExpiredRecovery.ExpiredKeyComesBack` is the shortest such run.
  - The order of a bounded store survives a step if and only if the step is no `GET` that moves an entry and
    no snapshot of more than one entry or of a deadline (`BoundedReplay.StepIsExactIff`). In
    `BoundedReplay.GetChangesEviction` one `GET` makes recovery evict another key than the server did.
  - Executing and logging are not one locked step. A key is recovered if its lines since the snapshot are logged
    completely and in the order of execution (`LogOrder.InOrderIsRecovered`). Two writes logged in the opposite
    order are recovered if and only if they commute (`LogOrder.SwapIsRecoveredIff`,
    `KeyChanges.StepsCommuteIff`); two clients' `SET`s do not (`LogOrder.SwappedSetsRestoreOldValue`).
  - A snapshot can come between executing and logging. The line is then in the snapshot and in the log, which is
    harmless if and only if it does not count (`LogOrder.StraddledIsRecoveredIff`): in
    `LogOrder.SnapshotCountsTwice` one client's `INCR` leaves 1 in memory and 2 after a restart. One writer per
    key and no snapshot while a counter command is pending rule out both (`LogOrder.OneWriterRecovers`).
- The comment at `src/server_main.cpp:76-82` says that a `SET` or `DEL` racing with the replica dump is
  harmless. A replica ends up in step if and only if no captured pair whose line it can read has changed
  between capture and send, and each key whose dump line is over 8192 bytes has been made what it is by
  propagated lines (`Replication.SendIsInStepIff`). `Replication.OvertakenSetIsLost` is a plain `SET` that is
  lost, and `Replication.LongCounterIsNotReplicated` a counter that never arrives. Executing and propagating
  are not one locked step either: two writes sent in the opposite order leave the replica in step if and only
  if they commute (`StreamOrder.SwapReachesReplicaIff`, `StreamOrder.SwappedSetsDiverge`).
- "A request line must not exceed 8192 bytes, or the connection is closed" (`docs/PROTOCOL.md:15-17`) is true
  of every way of cutting the stream exactly for lines of 12288 bytes and more. From 8193 to 12287 bytes
  there are cuts in which the line is read (`Framing.FirstSegmentIsReadIff`); it is then answered with an
  error and the connection goes on, unless the line is of 8193 bytes and the last one is a carriage return
  (`Connection.LongRequestMayBeAnswered`). So a legal request of 8192 bytes sent with `\r\n` is executed or
  closes the connection, depending on the cut (`Connection.FullRequestWithCarriageReturn`).
- "Every reply is exactly one line" (`docs/PROTOCOL.md:37`) reaches a client that uses the same reader,
  whatever the cut, if and only if none of its requests is an unknown word of more than 8169 bytes
  (`Connection.OneReplyLinePerRequest`, `Connection.LongWordReplyIsUnread`).
- Expiry. The callback comes after the lock is released: popping and calling back later amounts to expiring
  at the pop if and only if no request in between creates the key for good
  (`ExpiringStore.DelayedCallbackIsAtomicIff`); `ExpiringStore.AcknowledgedSetIsLost` is a run in which an
  acknowledged `SET` is deleted. Eviction leaves the deadline of the evicted key behind
  (`TtlTable.CommandKeepsConsistentIff`, `TtlTable.EvictionLeavesDeadline`). And `EXPIRE` sets the promised deadline if and only if it is a
  64-bit number of nanoseconds (`TtlTable.ExpireIsExactIff`): the largest number of seconds it accepts makes
  the key due at once (`TtlTable.LongestExpireIsDueAtOnce`).

## Modelling choices

- A string is a sequence of bytes, one `char` per byte.
- `current + delta` in INCR and DECR, the deadline of `EX` and EXPIRE and the difference TTL takes wrap around
  at 64 bits; in C++ these overflows are undefined.
- Steps taken as atomic: executing a command; taking a snapshot with truncating the log; and, except in
  `LogOrder` and `StreamOrder`, executing a request with logging and propagating it. Snapshots succeed and appended log lines
  are durable.
- The clock, network chunks, results of `send`, ping outcomes and promotion replies are parameters and
  range over everything.
- The offset basis of the hash is the one in the code, which is not the published FNV-1a constant.

## Model

| member | source | states |
|---|---|---|
| Text.TokenizeSeparated | src/protocol/parser.cpp:13-21 | any whitespace byte separates: the tokens of `a c b` are those of `a` followed by those of `b`; with the single-token case this determines the tokeniser on every line |
| Text.TokenizeJoin | src/protocol/parser.cpp:13-21 | tokens printed with single spaces are read back unchanged |
| Text.JoinShortest | src/protocol/parser.cpp:13-21 | the printed form is never longer than the line the tokens came from |
| Text.IgnoringCase | src/command_executor.cpp:28-36 | comparing lowered letters and comparing raised letters are the same relation |
| Text.SpelledIff | src/protocol/parser.cpp:23-28 | both comparisons hold of a word and a command word if and only if each letter is the capital or the small one |
| Text.SpaceCodes | src/protocol/parser.cpp:13-21 | the separators by their codes |
| Text.GetLinesAppend | src/persistence/aof.cpp:9-14 | appending a record to a file of whole lines adds exactly that line to what `getline` yields |
| Text.GetLinesUnlines | src/persistence/replay.cpp:9-12 | lines written with newlines are read back as the same lines |
| Numbers.StollReadsPrefix | src/storage/kv_store.cpp:79-83 | the printed form of every 64-bit integer, followed by anything that does not start with a digit, parses to that integer |
| Numbers.StollSigns | src/storage/kv_store.cpp:79-83 | a plus sign is read over, and text that does not start with a number is none |
| Numbers.StoiOfDecimal | src/command_executor.cpp:158-163 | a printed integer is a port if and only if it has 32 bits |
| Numbers.PositiveSecondsExact | src/command_executor.cpp:41-53 | exactly the digit strings whose value is between 1 and the largest 64-bit integer are accepted, with that value |
| Numbers.DecimalIsShortToken | src/storage/kv_store.cpp:86-87 | a stored counter is a whitespace-free token of at most 20 bytes |
| Protocol.ParsePrint | src/protocol/parser.cpp:51-66 | a printed command parses to itself if and only if the line is at most 8192 bytes |
| Protocol.PrintParse | src/protocol/parser.cpp:51-66 | every accepted request, printed, is no longer and parses to the same command |
| Protocol.KindIgnoresCase | src/protocol/parser.cpp:30-47 | words that differ only in case are the same command |
| Protocol.KindIffSpelled | src/protocol/parser.cpp:30-47 | on the letters: each of the fourteen words, in any case, names its command, and everything else is unknown |
| Protocol.KeyRequests | src/protocol/parser.cpp:51-66 | from the text of a request: word and key parse to that command of that key, for GET, DEL, INCR, DECR, TTL, PERSIST and ROUTE |
| Protocol.PairRequests | src/protocol/parser.cpp:51-66 | the same for SET, EXPIRE and REPLICAOF with two words |
| Protocol.BareRequests | src/protocol/parser.cpp:51-66 | the same for PING, SAVE, SYNC and NODES alone |
| Protocol.RepliesDecode | src/protocol/reply.cpp:6-16 | every reply decodes, by its prefix, to the value, number, absence or message it was made from |
| Protocol.RejectionDecodes | src/protocol/reply.cpp:14 | the answer to a write on a replica, as a client decodes it |
| Lru.OperationsKeepValid | src/storage/kv_store.cpp:14-52 | every operation keeps keys distinct and the size within capacity; a write ends at the front; only inserting a new key into a full store evicts, and only the last entry |
| Lru.UnboundedIsMap | src/storage/kv_store.cpp:14-43 | at capacity 0, SET and GET are map update and identity on the contents |
| Lru.TouchMovesToFront | src/storage/kv_store.cpp:33-43 | a hit moves exactly its entry to the front and keeps the order of the others |
| Lru.LruInclusion | src/storage/kv_store.cpp:14-52 | on every SET/GET/DEL trace a smaller store holds a subsequence of what a larger or unbounded one holds, same values, same order |
| Lru.CacheHitIsMapValue | src/storage/kv_store.cpp:33-43 | whatever a bounded store still holds is what a plain map running the same trace holds |
| KvStore.KVStore.Set | src/storage/kv_store.cpp:14-31 | list and index stay linked and the recency list becomes the set of the value model, evictions included |
| KvStore.KVStore.Get | src/storage/kv_store.cpp:33-43 | returns what the list holds and moves the hit to the front |
| KvStore.KVStore.Del | src/storage/kv_store.cpp:45-52 | removes the key from list and index, and reports whether it was there |
| KvStore.KVStore.Exists | src/storage/kv_store.cpp:61-66 | the index answers like a search of the list, and the order is untouched |
| KvStore.KVStore.ForEach | src/storage/kv_store.cpp:54-59 | visits exactly the entries, most recently used first |
| KvStore.KVStore.IncrementBy | src/storage/kv_store.cpp:73-89 | parses, adds and writes back as one step; text that is no number leaves the store alone |
| Expiry.InvAlways | src/storage/expiry_manager.cpp:9-25 | in every run each live deadline has its own heap entry, a waiting sweeper's deadline is no earlier than the top, and unless it has been notified it is no later than any entry |
| Expiry.TimeoutIsDue | src/storage/expiry_manager.cpp:55-63 | after a timed-out wait the heap is not empty and what is popped is due, even if it arrived during the wait |
| Expiry.LazyHeapRefinesDeadlineMap | src/storage/expiry_manager.cpp:47-79 | every step of every run is a step of a plain deadline map: no early fire, no fire of a superseded or cancelled deadline |
| Expiry.NothingDueIsMissed | src/storage/expiry_manager.cpp:15-17 | in every run a sleeping sweeper has been notified or sleeps until no later than every live deadline; and while a live deadline has come, the heap's top has come as well |
| Expiry.FiresAtMostOncePerSchedule | src/storage/expiry_manager.cpp:65-71 | in every run a key fires no more often than it is scheduled |
| Expiry.EntriesAreConserved | src/storage/expiry_manager.cpp:59-75 | in every run, entries in the queue and timeouts are what was in the queue and schedules: each timeout takes one entry out, stale or not |
| Expiry.LiveDeadlineFires | src/storage/expiry_manager.cpp:62-75 | a live deadline left alone has fired, exactly once, after as many timeouts as there were entries and schedules since |
| Expiry.SweeperCanGoOn | src/storage/expiry_manager.cpp:47-79 | in every reachable state the sweeper can wait, time out once its deadline has come, be woken and wait for the top, or return from the callback |
| Expiry.ExpiryManager.Schedule | src/storage/expiry_manager.cpp:9-18 | replaces the live deadline and pushes a heap entry, leaving stale ones |
| Expiry.ExpiryManager.Cancel | src/storage/expiry_manager.cpp:20-25 | erases the live deadline and leaves the heap alone |
| Expiry.ExpiryManager.SweepTimeout | src/storage/expiry_manager.cpp:60-75 | pops a least entry and fires exactly when it is the key's live deadline; an empty heap is left alone |
| Executor.ExecKeepsGood | src/command_executor.cpp:63-187 | every command keeps keys and values whitespace-free, keys distinct, and the capacity respected |
| Executor.CommandExecutor.Execute | src/command_executor.cpp:63-187 | data, reply and effect of executing a command on the store and expiry objects are those of the value model, in every branch |
| Executor.CommandExecutor.ExecuteSet | src/command_executor.cpp:67-83 | plain SET clears the deadline, SET EX sets one, bad arguments change nothing |
| Executor.CommandExecutor.Add | src/command_executor.cpp:20-26 | INCR and DECR answer the stored number, or an error that changes nothing |
| Executor.CommandExecutor.ExecuteTtl | src/command_executor.cpp:112-121 | -2, -1 or the whole seconds left |
| Contents.ExecIsMapStep | src/command_executor.cpp:63-187 | what an unbounded store holds after a command depends only on what it held, not on order, deadlines or clock |
| Contents.ReplyIsMapReply | src/command_executor.cpp:63-187 | at any capacity every command answers as a table of commands, arguments and replies over a plain map and the deadlines says |
| Contents.UnloggedChangesNothing | src/server_main.cpp:61-68 | a command that is not logged changes nothing, except that GET reorders |
| Contents.WriteIffCanChangeData | include/tinykv/protocol/command.hpp:38-50 | a command counts as a write if and only if some use of it changes contents or deadlines |
| Contents.MapStepIsLocal | src/command_executor.cpp:63-187 | a command's effect on a key depends only on that key |
| Contents.ReplayIsFold | src/persistence/replay.cpp:9-20 | replaying lines into an unbounded store applies them one by one to its contents, at any replay times |
| Contents.ShapeStep | src/command_executor.cpp:67-140 | recency list and set of keys with a deadline evolve independently of the clock |
| Snapshot.ParseSnapshotLine | src/persistence/snapshot.cpp:9-13 | a snapshot line parses back to its SET if key and value are at most 8187 bytes together, and is rejected otherwise |
| Snapshot.LoadReverses | src/persistence/snapshot.cpp:9-15 | loading a snapshot into any capacity gives the entries reversed, without those that are too long, cut to the capacity |
| Snapshot.SnapshotRoundTrip | src/persistence/snapshot.cpp:9-15 | with room, a reload gives the same entries in exactly reverse order |
| Snapshot.TwoRoundTripsRestoreOrder | src/persistence/snapshot.cpp:9-15 | saving and loading twice restores the recency list |
| Snapshot.SmallReloadKeepsOldest | src/storage/kv_store.cpp:25-30 | a reload into a smaller store keeps exactly the least recently used entries |
| Snapshot.SnapshotIsFaithfulIffAllFit | src/persistence/snapshot.cpp:9-15 | a snapshot restores the contents if and only if every entry's line fits |
| Snapshot.FoldDump | src/persistence/snapshot.cpp:9-13 | a dump played into any contents overwrites the dumped keys whose lines fit and leaves the others |
| Durability.CrashRecovery | src/persistence/persistence_manager.cpp:38-58 | after any run of requests, replicated lines, snapshots and restarts, recovery rebuilds exactly the live contents |
| Durability.CrashRecoveryOfShortKeys | src/persistence/persistence_manager.cpp:38-58 | the same with no other condition than counter keys of at most 8167 bytes |
| Durability.InvAlways | src/server_main.cpp:61-68 | at every command boundary the files on disk amount to the contents in memory |
| Durability.SaveIsDurableIffAllFit | src/persistence/persistence_manager.cpp:53-58 | truncating the log after a snapshot loses nothing if and only if every entry's line fits |
| Durability.ShortCounterKeysFit | src/protocol/parser.cpp:51-54 | a run whose counter keys are at most 8167 bytes never holds an entry whose snapshot line is too long |
| Durability.SetLineLeavesRoom | src/protocol/parser.cpp:51-54 | an accepted SET request leaves an entry whose own snapshot line is accepted |
| Durability.LongCounterKeyIsLost | src/persistence/replay.cpp:13-18 | a concrete family of runs in which an acknowledged and saved counter is gone after a restart |
| Durability.FilesHoldOnlyData | src/persistence/replay.cpp:9-20 | in every run, at any capacity, the files hold lines of writes only, so that replay has no other effect |
| Durability.ClientSeesMap | src/server_main.cpp:111-140 | for every server and request: a replica rejects exactly the writes and does nothing with them; every other request is answered and carried out like on a plain map |
| Durability.RoleFollowsReplicaOf | src/command_executor.cpp:149-166 | REPLICAOF NO ONE, in any letters, makes a primary, REPLICAOF with a numeric port a replica, and nothing else changes the role |
| Durability.PrimaryLineIsApplied | src/server_main.cpp:206-215 | a line from the primary is applied whatever the role |
| LogOrder.BackToBackIsAtomic | src/server_main.cpp:134-135 | execute and record, run back to back, are the one step of the atomic model |
| LogOrder.InOrderIsRecovered | src/server_main.cpp:134-135 | in every interleaving of threads, snapshots and crashes, a key whose lines since the snapshot are logged completely and in execution order is recovered |
| LogOrder.OneWriterRecovers | src/server_main.cpp:61-68 | if no key is written by two threads and no snapshot is taken while a counter command is pending, every key whose last write is logged is recovered, and everything once nothing is pending |
| LogOrder.StraddledIsRecoveredIff | src/persistence/persistence_manager.cpp:53-58 | an accepted write, then a snapshot, then the write's log line: recovered if and only if the command is no counter command |
| LogOrder.SnapshotCountsTwice | src/persistence/persistence_manager.cpp:53-58 | one client, one INCR and one snapshot: 1 in memory, 2 after a restart |
| KeyChanges.SnapshotIsAheadByOneIff | src/persistence/persistence_manager.cpp:53-58 | with one writer per key, a snapshot leaves the files at most one line per key behind if and only if no counter command is pending |
| KeyChanges.StepsCommuteIff | src/command_executor.cpp:67-111 | two commands give the same contents in either order if and only if they are of different keys, one of them changes nothing, or they set the same value, both delete, both count, or count on a value that is no number |
| LogOrder.SwapIsRecoveredIff | src/server_main.cpp:134-135 | two threads' accepted writes logged in the opposite order are recovered if and only if they commute |
| LogOrder.SwappedSetsRestoreOldValue | src/server_main.cpp:134-135 | a run of two clients after which a restart brings back the overwritten value |
| ExpiredRecovery.RecoveryBringsBackFiredKeys | src/server_main.cpp:219-222 | in every run with fired deadlines, recovery gives the live contents with the unsettled fired keys on top |
| ExpiredRecovery.RecoveryAddsExactlyUndead | src/server_main.cpp:219-222 | if no counter command hits such a key, recovery adds exactly these keys to the live ones, and is exact if and only if there are none |
| ExpiredRecovery.UndeadIffFiredAndNotSettled | src/server_main.cpp:219-222 | these are the keys that fired while stored, with no snapshot, restart, SET or DEL of them since |
| ExpiredRecovery.ExpiredKeyComesBack | src/persistence/persistence_manager.cpp:38-46 | a key set with a deadline expires, and is back after a restart |
| BoundedReplay.BoundedReplayIsExact | src/server_main.cpp:61-68 | at any capacity, in every run whose steps keep the order, the files rebuild the same recency list, the same evictions and deadlines on the same keys |
| BoundedReplay.StepIsExactIff | src/storage/kv_store.cpp:41 | from an exact state an event leads to one if and only if it is no GET that moves an entry, and no snapshot of more than one entry, of a deadline or of a line too long |
| BoundedReplay.GetIsExactIff | src/storage/kv_store.cpp:33-43 | a GET keeps recovery exact if and only if it finds nothing or the front entry |
| BoundedReplay.FireIsExactIff | src/server_main.cpp:219-222 | a fired deadline keeps recovery exact if and only if it finds neither the key nor a deadline |
| BoundedReplay.GetChangesEviction | src/storage/kv_store.cpp:41 | SET, SET, GET, SET at capacity 2: the server and its recovery have evicted different keys |
| ServerProcess.Process.HandleClient | src/server_main.cpp:111-140 | one request line: parse error, SYNC, read-only rejection, or execution, effect, logging, propagation and reply; replicas are sent nothing otherwise |
| ServerProcess.Process.ExecuteAndRecord | src/server_main.cpp:134-135 | execute, carry out the effect, and log the line and write it to every registered replica exactly when it was a successful write |
| ServerProcess.Process.ApplyFromPrimary | src/server_main.cpp:206-215 | a line from the primary is executed, logged and sent to this server's own replicas in the same way |
| Registry.ReplicaRegistry.Propagate | src/replication/replica_registry.cpp:19-24 | the loop over the list writes the line to each registered connection |
| Registry.PropagatedCopies | src/replication/replica_registry.cpp:19-24 | every connection gets the line as often as it is registered |
| Registry.ReplicaRegistry.Remove | src/replication/replica_registry.cpp:14-17 | the list without every registration of the connection |
| ServerProcess.Process.PrintSnapshot | src/persistence/snapshot.cpp:9-13 | the text written is one SET line per entry in recency order |
| ServerProcess.Process.Save | src/persistence/persistence_manager.cpp:53-58 | snapshot first, then the log is empty |
| ServerProcess.Process.ReplayLines | src/persistence/replay.cpp:9-20 | the getline loop replays exactly the lines of the file, skipping what does not parse |
| ServerProcess.Process.Recover | src/persistence/persistence_manager.cpp:38-46 | an empty process becomes the replay of snapshot and log |
| Replication.ReplicaFollowsPrimary | src/server_main.cpp:61-104 | in every state of every run with clean sends: pending lines lead exactly to the primary, an up-to-date replica equals an earlier primary state, a drained one equals the primary, and before the dump no foreign key appears |
| Replication.SendIsInStepIff | src/server_main.cpp:88-93 | sending any captured dump leaves the replica in step if and only if every captured pair it can read is still what the primary holds, and propagated lines have made the others what they are |
| Replication.SendOfShortDumpIsInStepIff | src/server_main.cpp:88-93 | when all dump lines fit, if and only if no captured pair has changed |
| Replication.InvStep | src/server_main.cpp:61-104 | every step of either server or of the connection keeps the replication invariant |
| Replication.ApplyNextKeepsInv | src/server_main.cpp:206-215 | applying the next line keeps the replica equal to the executed prefix of the stream |
| Replication.OvertakenSetIsLost | src/server_main.cpp:76-82 | a plain SET between capture and send is lost on the replica |
| Replication.OverwrittenIsReached | src/server_main.cpp:83-93 | that state is reached by registering, capturing and one request |
| Replication.LongCounterIsNotReplicated | src/server_main.cpp:88-93 | a captured and unchanged counter with a very long key is missing on the drained replica |
| StreamOrder.InOrderReachesReplica | src/server_main.cpp:134-135 | in every interleaving of threads, a key whose lines are sent in execution order is on the drained replica what it is on the primary |
| StreamOrder.OneWriterReachesReplica | src/replication/replica_registry.cpp:19-24 | if no key is written by two threads, every key whose last write has been sent agrees, and everything once nothing is pending |
| StreamOrder.SwapReachesReplicaIff | src/server_main.cpp:134-135 | two accepted writes sent in the opposite order leave the replica in step if and only if they commute |
| StreamOrder.SwappedSetsDiverge | src/server_main.cpp:134-135 | two clients' SETs of one key after which the drained replica differs |
| Hash.ComputeFnv1a64 | src/sharding/consistent_hash_ring.cpp:7-30 | the accumulator loop and finishing steps compute the hash of the theorems |
| Hash.KnownDigests | src/sharding/consistent_hash_ring.cpp:7-30 | the digests of the empty string, a letter, a key and a virtual node as numbers, which fix basis, prime, bytes and finishing steps |
| Hash.WordHalves | src/sharding/consistent_hash_ring.cpp:11-12 | the word of a byte has its bits, from the low end, and determines every byte |
| Hash.UnfinaliseFinalise | src/sharding/consistent_hash_ring.cpp:24-28 | the finishing mix has a left inverse on 64-bit words |
| Hash.FinaliseUnfinalise | src/sharding/consistent_hash_ring.cpp:24-28 | and a right inverse, so it is a bijection |
| Hash.AbsorbInjective | src/sharding/consistent_hash_ring.cpp:11-14 | for a fixed byte the accumulator step is injective |
| Hash.OneByteChangeNeverCollides | src/sharding/consistent_hash_ring.cpp:7-30 | strings of any length that differ in exactly one byte hash to different positions |
| Ring.ConsistentHashRing.GetNode | src/sharding/consistent_hash_ring.cpp:48-54 | lower bound with wrap-around is the owner at the least clockwise distance modulo 2^64, for every key |
| Ring.ConsistentHashRing.AddNode | src/sharding/consistent_hash_ring.cpp:34-39 | every virtual position of the node is claimed, and the node is listed |
| Ring.ConsistentHashRing.RemoveNode | src/sharding/consistent_hash_ring.cpp:41-46 | every virtual position of the node is erased, whoever holds it |
| Ring.LowerBound | src/sharding/consistent_hash_ring.cpp:51-52 | the first position at or after the hash, or none |
| Ring.AddMovesKeysOnlyToNewNode | src/sharding/consistent_hash_ring.cpp:34-39 | after adding a node a key is where it was or on the new node, even under collisions |
| Ring.RemoveUndoesAddIffDisjoint | src/sharding/consistent_hash_ring.cpp:41-46 | removing an added node restores the ring if and only if none of its positions was taken |
| Ring.RemoveMovesOnlyOwnedKeys | src/sharding/consistent_hash_ring.cpp:41-46 | removing a node that alone sits on its positions moves only its own keys |
| Ring.SimilarIdsDoNotCollide | src/sharding/consistent_hash_ring.cpp:35-37 | same-index virtual nodes of ids that differ in one byte are apart |
| Ring.FirstVirtualNode | src/sharding/consistent_hash_ring.cpp:34-39 | the position of the first virtual node of `shard0` as a number |
| Ring.OwnerIsAShard | src/sharding/router.cpp:31-35 | every key belongs to one of the shards the router was built from |
| Failover.DownIffLastPingsFailed | src/sharding/shard_topology.cpp:88-103 | after any ping history a node is DOWN if and only if its last `max_missed_pings` pings failed |
| Failover.FailedOverIffPromotionWasDue | src/sharding/health_checker.cpp:64-109 | a shard has failed over if and only if some round found the primary DOWN, the replica UP and the promotion accepted; the active address is the replica's from the first such round on |
| Failover.FailoverIsOneWay | src/sharding/shard_topology.cpp:112-119 | a failover is never undone and the active address does not change again |
| Failover.ExactlyOneActive | src/sharding/shard_topology.cpp:121-133 | exactly one node of a shard is reported ACTIVE if and only if its two addresses differ |
| Failover.ReportIsTrue | src/sharding/shard_topology.cpp:121-133 | each node is reported with its own role and address, DOWN if and only if its own last pings failed, ACTIVE if and only if its address serves the shard |
| Failover.RouteFollowsFailover | src/sharding/router.cpp:37-40 | after any checks of any ids from the configuration on, a key is served by the shard the ring gave it: by its replica if it has one and some round of that shard was due for promotion, otherwise by its primary |
| Failover.ShardTopology.FindShard | src/sharding/shard_topology.cpp:36-48 | the first shard with the id |
| Failover.ShardTopology.RecordPingResult | src/sharding/shard_topology.cpp:88-103 | updates one node of one shard and nothing else |
| Failover.ShardTopology.PromoteReplica | src/sharding/shard_topology.cpp:112-119 | promotes exactly when there is a replica and the latch is open |
| Failover.ShardTopology.HealthOf | src/sharding/shard_topology.cpp:105-110 | the node's health, DOWN for an unknown shard |
| Failover.ShardTopology.ActiveAddressFor | src/sharding/shard_topology.cpp:58-62 | the active address, empty for an unknown shard |
| Failover.ShardTopology.CheckOne | src/sharding/health_checker.cpp:64-109 | one check changes only its shard, as the round function says |
| Failover.ShardTopology.CheckAll | src/sharding/health_checker.cpp:113-116 | one pass makes one check per configured id, in order |
| Failover.PassOfEachShard | src/sharding/shard_topology.cpp:36-48 | in a pass the first shard of an id gets every round of that id, and a later shard of the same id is never checked |
| Failover.EveryShardOnce | src/sharding/health_checker.cpp:113-116 | with distinct ids every shard is checked exactly once |
| Framing.ChunkingDoesNotMatter | src/net/line_protocol.cpp:29-46 | if the segments fit, the lines read are exactly the segments with one carriage return stripped, for every cut of the stream |
| Framing.FirstSegmentIsReadIff | src/net/line_protocol.cpp:29-46 | a segment is read under every cut if and only if it is at most 8192 bytes, and under some cut if and only if it is at most 12287 bytes; longer ones close the connection under every cut |
| Framing.CutDoesNotMatterIff | src/net/line_protocol.cpp:29-46 | what is read is independent of the cut if and only if the first segment over 8192 bytes, if any, is over 12287 bytes; it is then the segments before it |
| Framing.ReadIsReliableIffSegmentsFit | src/net/line_protocol.cpp:29-46 | every cut gives all the segments if and only if every terminated segment is at most 8192 bytes |
| Framing.BufferIsBounded | src/net/line_protocol.cpp:39-44 | on every input the buffer stays within 12288 bytes |
| Framing.ConnectionDeliversLinesIff | src/net/line_protocol.cpp:27-46 | lines written by one side are the lines read by the other, however they are cut, if and only if none is over 8192 bytes |
| Framing.LineReader.ReadNext | src/net/line_protocol.cpp:29-46 | the receive loop returns the line, buffer and remaining input of the specification |
| Framing.WriteRaw | src/net/line_protocol.cpp:17-25 | succeeds if and only if the sends before the first failure take all the bytes; what is on the wire is exactly what they took |
| Framing.WriteLine | src/net/line_protocol.cpp:27 | the same for a line and its newline |
| Framing.WrittenLinesAreRead | src/net/line_protocol.cpp:17-46 | whatever parts the sends take, wherever they fail and however the stream is cut, the reader gets exactly the lines written in full |
| Framing.PositiveSendsWriteAll | src/net/line_protocol.cpp:17-25 | under sends that each take at least one byte all lines are written in full |
| Connection.ReachableIsSound | src/command_executor.cpp:63-187 | every reachable store, at any capacity and across restarts, holds only whitespace-free keys and values, and no value too long for a reply |
| Connection.ExecReplyIsLine | src/protocol/reply.cpp:6-16 | every reply is one line with a type prefix |
| Connection.RepliesMatchRequests | src/server_main.cpp:111-140 | the n-th reply answers the n-th non-empty request, whatever other clients do |
| Connection.ReplyFitsIff | src/protocol/reply.cpp:6-16 | a reply is within the reader's limit if and only if it does not quote an unknown word of more than 8169 bytes |
| Connection.OneReplyLinePerRequest | src/server_main.cpp:106-141 | one reply line per request, in order; a client reads exactly these lines however they are cut, if and only if none of its requests is such a word |
| Connection.ReadYourWrite | src/server_main.cpp:111-140 | from request text to decoded answer: on a primary of any capacity and contents, SET k v is answered OK and GET k right after it v |
| Connection.LongRequestMayBeAnswered | src/net/line_protocol.cpp:29-46 | a segment of 8193 to 12287 bytes can be cut so that it is read, stripped, and the stream goes on, and so that the connection closes; what is read is answered with an error unless it was 8193 bytes with a carriage return |
| Connection.FullRequestWithCarriageReturn | src/net/line_protocol.cpp:33-39 | a request of exactly 8192 bytes with a carriage return is handed on intact or closes the connection, depending on the cut |
| Connection.LongWordReplyIsUnread | src/command_executor.cpp:183-185 | a legal unknown word of 8170 to 8192 bytes whose reply, arriving byte by byte, the client never reads |
| Counter.CounterConservation | src/storage/kv_store.cpp:73-89 | in any interleaving a counter ends at its start plus increments minus decrements, printed in decimal |
| TtlTable.ConsistentAlways | src/command_executor.cpp:67-140 | in an unbounded store every key with a deadline exists, at every command boundary of every run |
| TtlTable.CommandKeepsConsistentIff | src/storage/kv_store.cpp:25-30 | at any capacity a command keeps that if and only if it does not evict a key with a deadline |
| TtlTable.EvictionLeavesDeadline | src/storage/kv_store.cpp:25-30 | SET a with a deadline, SET b at capacity 1: a has a deadline and no entry |
| TtlTable.TtlPartitionsKeys | src/command_executor.cpp:112-121 | TTL answers -2, -1 and non-negative for exactly the absent, the permanent and the expiring keys |
| TtlTable.ExpireIsExactIff | src/command_executor.cpp:122-132 | EXPIRE n sets the deadline n seconds ahead if and only if that is a 64-bit number of nanoseconds, and TTL reads n back if and only if n seconds are one |
| TtlTable.ExpireCountsDown | src/command_executor.cpp:112-140 | after EXPIRE n with a deadline that fits, TTL answers n, then one less per second, down to 0, and -1 after PERSIST |
| TtlTable.TtlRoundsDown | src/command_executor.cpp:118-120 | at any moment before the deadline TTL answers the whole seconds left, rounded down |
| TtlTable.LongestExpireIsDueAtOnce | src/command_executor.cpp:130 | EXPIRE 9223372036854775807 is accepted with a deadline one second in the past |
| ExpiringStore.RequestIsExec | src/command_executor.cpp:67-140 | the timer calls of each command are exactly what it does to the table of deadlines |
| ExpiringStore.PoppedKeyWasDue | src/storage/expiry_manager.cpp:59-71 | in every run of requests and sweeper steps, a key handed to the callback had a live deadline that had come |
| ExpiringStore.DelayedCallbackIsAtomicIff | src/storage/expiry_manager.cpp:67-71 | pop and later callback leave the contents that expiring at the pop would have, if and only if no request in between creates the key without a later DEL |
| ExpiringStore.PendingDeletionIsOfLastWrite | src/storage/expiry_manager.cpp:67-71 | what the callback deletes is the value held at the pop if no write of the key was accepted since, and otherwise what the last accepted one left |
| ExpiringStore.CallbackKeepsConsistentIff | src/server_main.cpp:219-222 | the callback leaves every key with a deadline stored if and only if its key has not been given a new deadline since the pop |
| ExpiringStore.AcknowledgedSetIsLost | src/storage/expiry_manager.cpp:67-71 | a run from the empty store in which an acknowledged plain SET is deleted by the callback |
| ThreadPool.InvAlways | src/concurrency/thread_pool.cpp:23-45 | in every interleaving each task that left the queue is finished or held by exactly one worker, and no worker leaves while a task is queued |
| ThreadPool.TasksAreConserved | src/concurrency/thread_pool.cpp:23-45 | in every interleaving the submitted tasks are the queued, the running and the finished ones, each counted once |
| ThreadPool.JoinedMeansAllDone | src/concurrency/thread_pool.cpp:12-21 | when the destructor returns every submitted task has run |
| ThreadPool.ShutdownMakesProgress | src/concurrency/thread_pool.cpp:31-45 | until all workers are gone some worker can move |
| ThreadPool.WorkerStepsUseUpWork | src/concurrency/thread_pool.cpp:31-45 | every worker step uses up part of a finite amount of work, so the join ends |

## Left out

- Sockets, accept loop, signals, configuration files, command line, logger, CLI and benchmark tools: no state worth proving about.
- `ReplicationManager` beyond the role flag, and more than one replica in `Replication`: several replicas are independent copies of the same stream.
- `Router::forward` and its backend connections: reconnecting and relaying bytes; which address is used is modelled.
- `ReplicaLink` reconnection: a second SYNC into a replica that is not empty does not converge in the code when deletions were missed. A dump line over 8192 bytes can also close the link, depending on the cut.
- Log flushing, torn lines, failed snapshot writes, and a crash or a write between writing the snapshot and truncating the log.
- The null checks for persistence and replication in the executor: the server always sets both.
- Hit, miss and command counters, and the text layout of NODES.
- The 32-bit counter of missed pings does not overflow in the model.
- A request that changes store and timer does so in one step; the program takes the two locks one after the other.
- Durability.CrashRecovery: states contents, not recency order or deadlines, because a snapshot keeps neither (`BoundedReplay` says when the order survives); fired deadlines are in `ExpiredRecovery`, unlogged writes in `LogOrder`.
- Durability.CrashRecoveryOfShortKeys: likewise.
- Durability.InvAlways: likewise.
- Replication.ReplicaFollowsPrimary: executing a write and propagating it is one step (`StreamOrder` separates them once the dump has been sent), deadlines do not fire, both stores are unbounded and the replica starts empty.
- Replication.InvStep: likewise.
- BoundedReplay.BoundedReplayIsExact: fired deadlines are no events of its runs; `FireIsExactIff` is the condition for one.
- BoundedReplay.StepIsExactIff: likewise.
- ServerProcess.Process.ReplayLines: the effect of a SAVE or REPLICAOF line in a file is dropped; `Durability.FilesHoldOnlyData` shows that the server never writes one.
- ServerProcess.Process.Recover: likewise.
- LogOrder.SwapIsRecoveredIff: two writes; for more, `InOrderIsRecovered` and `OneWriterRecovers` are sufficient conditions.
- ThreadPool.JoinedMeansAllDone: needs one worker and no submission after shutdown began; the locked sections are steps of a machine over values, not methods of an object.
- Expiry.LazyHeapRefinesDeadlineMap: the sweep loop is a machine over values so that other threads' steps can come between; `SweepTimeout` is its locked body on the object. The order among equal deadlines is arbitrary.
