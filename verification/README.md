# VaultSync in Dafny

A model of the parts of VaultSync that decide whether a write can be lost, repeated, reordered
or misread, with proofs about every run, input or interleaving.

- **Server log.** `MutationLog` is the mutations table, with `push` as insert-or-ignore by id and
  the sequence queries. `SqliteCoordinator` is the coordinator object; `RetriedPush`, `Compaction`,
  `Bootstrap`, `Registration`, `SnapshotGuard`, `SubscribePoint` and `Paging` hold what is proved
  about pushes, compaction, registration and cursors, replacing a snapshot, where to subscribe, and
  paging.
- **Subscriptions.** `SqliteSubscription` is a state machine of commits, broadcasts, dropped and
  lagged messages, queries and deliveries. `SqliteDelivery` proves that nothing is skipped,
  `SqliteCompacted` what holds while the log is compacted, `SqliteOverlap` that the condition on
  commits is exact, `SqliteTask` is its loop. `PostgresSubscription` is the notify-and-page
  variant; `PostgresRest` proves that it can always finish. Both use `DeliveryProgress`, and
  `Channels` says what their channels hold. `EventStream` and `EventStreamResume` are the HTTP
  event-stream reader over arbitrary chunks and reconnects. `RedisStream` is pulling by stream id
  and `RedisTail` reading a stream to its end.
- **Clock.** `HybridClock` is one clock and all message-passing runs of many; `ClockReadings` and
  `ClockCounters` say what the two parts of a timestamp are; `ClockThreads` is every
  interleaving of the atomic operations of many threads on one clock, `ClockThreadReadings` what its
  wall then is, and `ClockOverlap` the race of two calls.
- **Client.** `Lru`, `SegmentedLru` and `Documents` are the cache and the document runtime over it;
  `LruRecency`, `SegmentedRecency` and `DocumentHistory` say what they hold by the operations alone.
  `BusMessages` and `BusWire` are the tab-to-tab text format, `Oplog` the durable queue of local
  writes, and `UploadWorker` the loop that drains it.
- **Shared.** `Prelude`, `Sequences`, `Text` and `Decimal`.

Entities that the program updates in place are classes whose methods are proved against functions
on values; the theorems are about those functions. Tables are sequences in sequence order. The
order in which a query returns snapshots, the system clock, UTF-8 and JSON decoding, and the replies
of the upload queue are parameters.

## What the proofs say about the program

Some promised properties do not hold of the code as it is. Each has a lemma with a concrete run
and a lemma with the exact condition.

| promise | witness | exact condition |
|---|---|---|
| a subscriber never misses a row | `SqliteOverlap.OverlapLosesRow` | `SqliteOverlap.CommitGapFreeIff` |
| a push announces rows of its namespace | `SqliteOverlap.ForeignIdMisleads` | `SqliteOverlap.AnnouncesOwnRowsIff` |
| a Postgres subscriber at rest has everything | `PostgresSubscription.LostNotificationStalls` | `PostgresSubscription.RestsCompleteIff`, `PostgresSubscription.LossHarmsIff` |
| a retried push leaves the log of a single push | `RetriedPush.RetryLeavesGap` (numbers only) | `RetriedPush.SameNumbersIff` |
| a snapshot may be stored at any time | `Bootstrap.OlderSnapshotLosesRow` | `SnapshotGuard.StoreSnapshotKeepsNoLossIff` |
| subscribing at the largest snapshot sequence is safe (README.md:902) | `SubscribePoint.LargestSnapshotSkipsRow`, `SubscribePoint.LargestSnapshotSkipsLaterRow` | `SubscribePoint.SubscribePointSafeIff` |
| two calls of `now` return different timestamps | `ClockOverlap.OverlappingCallsCollide` | `ClockOverlap.CollideIff` |
| the wrap flag tells whether the counter wrapped | `HybridClock.WrapFlagIsUnreliable` | `HybridClock.WrapFlagIff`, `HybridClock.FlagIsRightIff` |
| a Redis pull returns what is above the cursor | `RedisStream.CrowdedEntryIsMissed` | `RedisStream.SelectedExactlyIff` |
| limited Redis pulls end with the whole tail | `RedisStream.MaximalCursorRepeats` | `RedisTail.TailIsReadIff` |
| a bus message survives the channel | `BusMessages.BarCutsField` | `BusMessages.RoundTripIff` |
| the segmented cache holds at most its maximum | `SegmentedLru.SmallestCacheOverflows` | `SegmentedLru.TotalBoundedIff` |
| a read after `delete_field` sees the deletion | `Documents.DeletedFieldIsRead` | `Documents.ReadIsRightIff` |
| records have different cache keys | `Documents.ColonMixesRecords` | `Documents.KeysCollideIff` |
| an acknowledgement takes its entry off the pending list | `Oplog.RepeatedIdStaysPending` | `Oplog.MarkDropsIff` |

Where code and comments differ the model follows the code: `rebalance` is documented as demoting
protected entries but evicts from probation (and is proved never to evict at all); the Postgres
subscription logs a lag and waits instead of querying again
(`PostgresSubscription.LostNotificationStalls`).

An insert that SQLite or Postgres ignores still takes a number from the table's counter, so the
model numbers attempts, not rows.

## Model

| member | source | states |
|---|---|---|
| SqliteCoordinator.Coordinator.constructor | crates/vaultsync-coordinator-sqlite/src/migrations.rs:7-17 | both tables start empty and the counter at 0 |
| SqliteCoordinator.Coordinator.InsertOrLookup | crates/vaultsync-coordinator-sqlite/src/coordinator.rs:64-79 | a new id is appended under the next number; a known id changes no row and is answered with its stored sequence |
| SqliteCoordinator.Coordinator.Push | crates/vaultsync-coordinator-sqlite/src/coordinator.rs:48-113 | a push is the fold of its inserts, one acknowledgement per mutation, and broadcasts its own payloads under those sequences |
| SqliteCoordinator.Coordinator.PullRows | crates/vaultsync-coordinator-sqlite/src/coordinator.rs:141-174 | exactly the first `limit` rows of the namespace above the cursor, in order |
| SqliteCoordinator.Coordinator.PutSnapshot | crates/vaultsync-coordinator-sqlite/src/coordinator.rs:537-545 | replaces the record's snapshot and nothing else |
| SqliteCoordinator.Coordinator.CompactOplog | crates/vaultsync-coordinator-sqlite/src/coordinator.rs:563-617 | for every order of the snapshots, removes exactly the covered rows and returns the drop in size and the number of records that lost a row |
| RetriedPush.LogIsFirstOccurrences | crates/vaultsync-coordinator-sqlite/src/coordinator.rs:63-92 | after any pushes onto any log with unique ids, the log's contents are what was there and then the first occurrences of what is new, and ids are unique |
| RetriedPush.RepeatFreeLogAgrees | crates/vaultsync-coordinator-sqlite/src/coordinator.rs:63-92 | on any log, repeats of each other or of what is stored change neither which mutations are stored nor their order |
| RetriedPush.BatchesAreOnePush | crates/vaultsync-coordinator-sqlite/src/coordinator.rs:36-96 | cutting the same mutations into batches differently changes neither the log nor any acknowledgement |
| RetriedPush.AckIsStoredSequence | crates/vaultsync-coordinator-sqlite/src/coordinator.rs:74-80 | every acknowledgement is the sequence under which its id is stored in the final log |
| RetriedPush.SameIdSameAck | crates/vaultsync-coordinator-sqlite/src/coordinator.rs:74-80 | all pushes of one id get one answer |
| RetriedPush.FirstAckIsFresh | crates/vaultsync-coordinator-sqlite/src/coordinator.rs:74-80 | the first acceptance at position `i` gets the counter plus `i`, so first acceptances strictly increase |
| RetriedPush.SameNumbersIff | crates/vaultsync-coordinator-sqlite/src/coordinator.rs:54-96 | on any log, the numbered result equals that of the repeat-free list exactly when every repeat, stored ids included, comes after every new mutation |
| RetriedPush.RetryLeavesGap | crates/vaultsync-coordinator-sqlite/src/migrations.rs:7-17 | pushing a, a, b numbers b differently from pushing a, b |
| RetriedPush.HttpPushExactlyOnce | crates/vaultsync-coordinator-http/src/coordinator.rs:266-337 | whether the WebSocket attempt was dropped, processed before the HTTP request or after it, with any pushes of others between, the rows are those of one push and the others', and the client gets the answers of one push |
| Compaction.DeleteEachIsFilter | crates/vaultsync-coordinator-sqlite/src/coordinator.rs:590-608 | deleting snapshot by snapshot, in any order, leaves exactly the uncovered rows; the two counters are the drop in size and the number of snapshots that deleted something |
| Compaction.CompactionExact | crates/vaultsync-coordinator-postgres/src/coordinator.rs:543-598 | precisely the rows of the namespace at or below their own record's snapshot go, with exact counters |
| Compaction.CompactIdempotent | crates/vaultsync-coordinator-sqlite/src/coordinator.rs:548-621 | a second compaction removes and counts nothing |
| Compaction.OtherNamespacesUnchanged | crates/vaultsync-coordinator-sqlite/src/coordinator.rs:592-602 | every pull from another namespace answers as before |
| Bootstrap.NothingAcceptedIsLost | crates/vaultsync-coordinator-sqlite/src/coordinator.rs:521-621 | in every run with non-decreasing snapshots per record, every mutation ever accepted is a row or at or below its record's snapshot |
| Bootstrap.RunsKeepOneRowPerNumber | crates/vaultsync-coordinator-sqlite/src/coordinator.rs:63-96 | in every run each sequence is given to one row only |
| SnapshotGuard.RunsDeleteFromBelow | crates/vaultsync-coordinator-sqlite/src/coordinator.rs:548-621 | in every run, snapshots going down or not, the rows missing of a record all have lower numbers than its stored ones, and stored ids are distinct |
| SnapshotGuard.StoreSnapshotKeepsNoLossIff | crates/vaultsync-coordinator-sqlite/src/coordinator.rs:539-543 | replacing a snapshot loses nothing, whatever run led to the tables, exactly when every number under the old one and not under the new one is stored or has a lower row of the record stored |
| Bootstrap.OlderSnapshotLosesRow | crates/vaultsync-coordinator-sqlite/src/coordinator.rs:521-546 | an older snapshot stored after a compaction loses a row |
| Bootstrap.BootstrapIsComplete | crates/vaultsync-coordinator-server/src/ws.rs:255-293 | a replica that registers and then subscribes at one cursor has every accepted mutation up to its delivery point, and once idle every one without limit, as a row, under a snapshot it was sent, or as its own, with any steps but compaction in between and any interleaving after |
| Registration.RegisteredIsLeast | crates/vaultsync-coordinator-server/src/ws.rs:255-259 | a choice of snapshots lets every replica, after every run to that snapshot table and every session that comes to rest, have everything above the cursor, exactly when it includes all that registration sends; those are of the namespace and above the cursor |
| Registration.ForwardedIsOthersLog | crates/vaultsync-coordinator-server/src/ws.rs:427-470 | at rest a replica was forwarded exactly what others wrote to the log above its cursor, in order |
| SubscribePoint.SubscribePointSafeIff | crates/vaultsync-coordinator-server/src/ws.rs:427-437 | every session subscribed at a point that comes to rest has everything above the registered cursor, exactly when every row skipped is covered by its record's snapshot and the point is at most the cursor or the last number assigned |
| SubscribePoint.ComesToRest | crates/vaultsync-coordinator-sqlite/src/coordinator.rs:98-304 | from every state the broadcasts, receives, queries and deliveries can run to rest without touching the log |
| SubscribePoint.LargestSnapshotSkipsRow | README.md:902-902 | the documented maximum of the cursor and the snapshot sequences can skip a row of another record |
| SubscribePoint.LargestSnapshotSkipsLaterRow | README.md:902-902 | with a snapshot that claims more than the log holds, it skips a row committed after subscribing |
| Bootstrap.MaxSequenceCovers | crates/vaultsync-coordinator-cf/src/lib.rs:485-501 | the maximum over remaining rows and snapshots is at least every sequence assigned in the namespace, and equals the last exactly when no snapshot claims a later one |
| Bootstrap.CursorStaysValid | crates/vaultsync-core/src/coordinator/traits.rs:113-127 | in every such run a cursor at any accepted sequence is still judged valid |
| Registration.CursorAnswerIff | crates/vaultsync-core/src/coordinator/traits.rs:113-127 | for every log: unknown exactly when no row remains and no snapshot is above 0, otherwise rejected exactly when the cursor is above every remaining row and snapshot |
| Registration.RejectedIff | crates/vaultsync-core/src/coordinator/traits.rs:113-127 | in every run with something accepted in the namespace, a cursor is rejected exactly when it is above every sequence assigned and every snapshot there |
| Paging.PullAll | crates/vaultsync-coordinator-server/src/ws.rs:374-406 | while the log grows between pages, following `has_more` from the last row of each page ends with the whole tail of the log that served the last page; until then every page was full and exactly the rows up to the cursor are read |
| SqliteSubscription.SentStrictlyIncreases | crates/vaultsync-coordinator-sqlite/src/coordinator.rs:189-304 | in every run whatever, compaction and overlap included, the sequences sent strictly increase, belong to the namespace, and what was sent stays sent |
| Channels.QueueIsLatest | crates/vaultsync-coordinator-sqlite/src/coordinator.rs:232-304 | in every run the channel holds all that was broadcast but the oldest, as many as were dropped or received |
| SqliteDelivery.SubscriptionIsGapFree | crates/vaultsync-coordinator-sqlite/src/coordinator.rs:98-304 | for every pattern of drops and lags, in runs without compaction where pushes to the namespace do not overlap, what was sent is exactly the namespace's log in (from, last sent] |
| SqliteDelivery.RunKeepsInv | crates/vaultsync-coordinator-sqlite/src/coordinator.rs:98-304 | the same for every run whose commits meet the exact condition of `SqliteOverlap.CommitGapFreeIff`, overlapping or not |
| SqliteDelivery.IdleIsComplete | crates/vaultsync-coordinator-sqlite/src/coordinator.rs:232-304 | with nothing left to broadcast, receive or deliver, everything committed has been sent |
| SqliteDelivery.OpenedInv | crates/vaultsync-coordinator-sqlite/src/coordinator.rs:183-189 | a subscription may be opened with pushes half broadcast |
| SqliteDelivery.NoOverlapIsSafe | crates/vaultsync-coordinator-sqlite/src/coordinator.rs:98-113 | a push that commits when no other has rows of the namespace to broadcast meets the exact condition |
| SqliteCompacted.SentOrCovered | crates/vaultsync-coordinator-sqlite/src/coordinator.rs:98-304 | in every run with compaction, snapshots that never go down and pushes to the namespace that do not overlap, whatever the channel drops: what is sent rises, every accepted row in (from, last sent] was sent or is under a stored snapshot, and at rest so is every accepted row above `from` |
| SqliteCompacted.RunKeeps | crates/vaultsync-coordinator-sqlite/src/coordinator.rs:98-304 | every such run keeps the order of the announcements of rows that no snapshot covers |
| SqliteOverlap.CommitGapFreeIff | crates/vaultsync-coordinator-sqlite/src/coordinator.rs:94-113 | no schedule of the channel after a commit makes a gap, exactly when a query is due or each of its messages comes after every lower unsent row |
| SqliteOverlap.UnsafeCommitLosesRow | crates/vaultsync-coordinator-sqlite/src/coordinator.rs:98-113 | otherwise it gives a schedule and the row that is skipped |
| SqliteOverlap.OverlapLosesRow | crates/vaultsync-coordinator-sqlite/src/coordinator.rs:235-242 | two overlapping pushes of one row each: the first row is never sent |
| SqliteOverlap.ForeignIdMisleads | crates/vaultsync-coordinator-sqlite/src/coordinator.rs:76-91 | an id known in one namespace and pushed to another is delivered to a log that does not hold it |
| SqliteOverlap.AnnouncesOwnRowsIff | crates/vaultsync-coordinator-sqlite/src/coordinator.rs:74-91 | a push announces only rows its namespace holds exactly when every id of it that is already known is stored there |
| DeliveryProgress.SendKeepsExact | crates/vaultsync-coordinator-sqlite/src/coordinator.rs:223-230 | sending the first fetched row keeps sent and fetched rows exactly the log up to where they were |
| SqliteTask.Task.CatchUp | crates/vaultsync-coordinator-sqlite/src/coordinator.rs:193-230 | the query-and-send loop sends exactly the rows above its cursor and leaves none |
| SqliteTask.Task.OnMessage | crates/vaultsync-coordinator-sqlite/src/coordinator.rs:235-243 | a message is forwarded exactly when the state machine accepts it |
| SqliteTask.DeliverSome | crates/vaultsync-coordinator-sqlite/src/coordinator.rs:223-230 | delivering a query's rows one step at a time reaches the state of the loop |
| PostgresSubscription.NextKeepsInv | crates/vaultsync-coordinator-postgres/src/coordinator.rs:172-296 | every step, losses included, keeps the rows sent and fetched exactly the log up to where they are |
| PostgresSubscription.SubscriptionIsGapFree | crates/vaultsync-coordinator-postgres/src/coordinator.rs:172-296 | in every interleaving of pushes, lost and lagged notifications and page boundaries, what was sent is exactly the namespace's log in (from, last sent] |
| PostgresSubscription.RestsCompleteIff | crates/vaultsync-coordinator-postgres/src/coordinator.rs:226-296 | a subscriber has everything however it comes to rest without a further loss, exactly when what it has not fetched is covered by a planned query or a notification on its way |
| PostgresSubscription.LossHarmsIff | crates/vaultsync-coordinator-postgres/src/coordinator.rs:281-290 | dropping a notification from the channel or on the wire does harm exactly when it was the last one for rows not yet fetched |
| PostgresSubscription.RestIsComplete | crates/vaultsync-coordinator-postgres/src/coordinator.rs:172-296 | in every run without losses, a subscription at rest has sent its whole tail |
| PostgresSubscription.WaitingIsComplete | crates/vaultsync-coordinator-postgres/src/coordinator.rs:226-296 | while waiting, the whole tail was sent exactly when nothing committed lies above the last row sent |
| PostgresRest.ComesToRest | crates/vaultsync-coordinator-postgres/src/coordinator.rs:172-296 | from every state of every run the channel and the subscriber can come to rest without a push or a loss, the log as it was |
| PostgresRest.CatchesUp | crates/vaultsync-coordinator-postgres/src/coordinator.rs:172-296 | so after every run without losses it can go on, without a push, to have sent its whole tail |
| Channels.WireIsLatest | crates/vaultsync-coordinator-postgres/src/coordinator.rs:108-116 | in every run each push is announced once and in order: the wire holds the latest announcements |
| Channels.NamesAreLatest | crates/vaultsync-coordinator-postgres/src/coordinator.rs:22-41 | and the channel the latest of those that came over the wire |
| PostgresSubscription.LostNotificationStalls | crates/vaultsync-coordinator-postgres/src/coordinator.rs:283-290 | after a lost notification the subscriber waits with a committed row unsent |
| PostgresSubscription.Task.SendPage | crates/vaultsync-coordinator-postgres/src/coordinator.rs:199-219 | a page is sent in order and the cursor ends at its last row |
| PostgresSubscription.Task.SendPending | crates/vaultsync-coordinator-postgres/src/coordinator.rs:176-224 | over a fixed log the paging loop ends with every row above the cursor sent |
| EventStream.EmitConcat | crates/vaultsync-coordinator-http/src/coordinator.rs:469-489 | the rows of two pieces of a byte stream are the rows of the first, then of its unfinished line and the second |
| EventStream.ChunkingIrrelevant | crates/vaultsync-coordinator-http/src/coordinator.rs:461-490 | output, buffer and cursor after any chunks are those after their concatenation in one chunk |
| EventStream.RestHasNoNewline | crates/vaultsync-coordinator-http/src/coordinator.rs:471-472 | what stays buffered holds no complete line |
| EventStream.DataLine | crates/vaultsync-coordinator-http/src/coordinator.rs:472-488 | a data line yields what its text parses to, whatever white space surrounds the tag and the text |
| EventStream.OtherLine | crates/vaultsync-coordinator-http/src/coordinator.rs:472-488 | a line that is not UTF-8 or does not start with the tag yields nothing |
| EventStream.StreamReader.HandleLine | crates/vaultsync-coordinator-http/src/coordinator.rs:472-488 | one line yields at most one mutation and raises the cursor to it |
| EventStream.StreamReader.FeedChunk | crates/vaultsync-coordinator-http/src/coordinator.rs:463-490 | the drain loop handles every complete line and keeps the unfinished one |
| EventStream.StreamReader.Reconnect | crates/vaultsync-coordinator-http/src/coordinator.rs:439-461 | a reconnect drops the unfinished line and keeps cursor and output |
| EventStreamResume.FrameYields | crates/vaultsync-coordinator-server/src/routes.rs:197-203 | one event frame yields exactly its row, a keep-alive none, and neither leaves anything buffered |
| EventStreamResume.PrefixYieldsPrefix | crates/vaultsync-coordinator-server/src/routes.rs:197-203 | whatever prefix of the server's frames arrives, the reader yields a prefix of the rows |
| EventStreamResume.ResumesWithoutGap | crates/vaultsync-coordinator-http/src/coordinator.rs:435-492 | across any connections cut anywhere, the concatenated output is the namespace's log after the first cursor, with no gap and no repeat |
| EventStreamResume.SubscriptionServesAfter | crates/vaultsync-coordinator-server/src/routes.rs:186-199 | a gap-free subscription serves what the reader's theorem asks of the server |
| RedisStream.SequenceRoundTrip | crates/vaultsync-coordinator-redis/src/coordinator.rs:23-34 | printing a sequence as an id and reading it back is the identity on every 64-bit value |
| RedisStream.IdRoundTripIff | crates/vaultsync-coordinator-redis/src/coordinator.rs:23-34 | an id survives becoming a sequence and an id again exactly when its counter is below a million and the number fits |
| RedisStream.LooseIds | crates/vaultsync-coordinator-redis/src/coordinator.rs:23-28 | an id without a dash is a millisecond in slot 0, and a part that cannot be read counts as 0 |
| RedisStream.OrderIsomorphism | crates/vaultsync-coordinator-redis/src/coordinator.rs:23-28 | on such ids Redis's order and the sequence order agree |
| RedisStream.CrowdedMillisecondCollides | crates/vaultsync-coordinator-redis/src/coordinator.rs:27-27 | the millionth entry of any millisecond collides with the first of the next |
| RedisStream.CrowdedEntryIsMissed | crates/vaultsync-coordinator-redis/src/coordinator.rs:186-199 | the pull from just below that entry's sequence does not return it |
| RedisStream.SelectedExactlyIff | crates/vaultsync-coordinator-redis/src/coordinator.rs:180-199 | the range query selects an id for exactly the cursors below its sequence, exactly when the id fits or has wrapped onto the last sequence |
| RedisStream.MaximalCursorRepeats | crates/vaultsync-coordinator-redis/src/coordinator.rs:188-188 | from the maximal cursor the saturated start returns the entry at the cursor again |
| RedisStream.Pull | crates/vaultsync-coordinator-redis/src/coordinator.rs:180-210 | a pull is the readable entries of the range query, and equals the log's pull on the stream's rows |
| RedisTail.PullTail | crates/vaultsync-coordinator-redis/src/coordinator.rs:180-210 | limited pulls, each from the last sequence of the one before, end with exactly the tail |
| RedisTail.TailIsReadIff | crates/vaultsync-coordinator-redis/src/coordinator.rs:180-210 | they do so exactly when the tail does not end at the last 64-bit sequence with its last page full |
| HybridClock.HybridLogicalClock.constructor | crates/vaultsync-core/src/clock.rs:40-47 | starts at the system time with counter 0 |
| HybridClock.HybridLogicalClock.Tick | crates/vaultsync-core/src/clock.rs:54-83 | one call at a time, the loop sets and returns the next timestamp and the wrap flag |
| HybridClock.HybridLogicalClock.UpdateWithReceived | crates/vaultsync-core/src/clock.rs:87-110 | one call at a time, the loop merges the received timestamp and leaves the wrap flag |
| HybridClock.NowAdvancesIff | crates/vaultsync-core/src/clock.rs:60-66 | a tick moves strictly forward exactly when the counter does not wrap |
| HybridClock.ReceiveAdvancesIff | crates/vaultsync-core/src/clock.rs:92-99 | a merge moves strictly past both the clock and the message exactly when the counter does not wrap |
| HybridClock.FlagMeans | crates/vaultsync-core/src/clock.rs:73-76 | after any calls the flag is set exactly when a tick since the last clear wrapped the counter or jumped over it |
| HybridClock.WrapFlagIff | crates/vaultsync-core/src/clock.rs:112-120 | the flag says whether the counter wrapped since the last clear, exactly when a tick wrapped it, or it was jumped over just in case a merge wrapped it |
| HybridClock.FlagIsRightIff | crates/vaultsync-core/src/clock.rs:73-115 | in every run of replicas below 2^32 events the flag is right exactly when no tick of the replica jumps over a counter above 0 |
| HybridClock.HybridLogicalClock.ClearLogicalWrap | crates/vaultsync-core/src/clock.rs:117-120 | clears the flag and nothing else |
| HybridClock.WrapFlagIsUnreliable | crates/vaultsync-core/src/clock.rs:73-110 | the flag is set without a wrap by a jump of the wall, and not set by a wrap on receipt |
| HybridClock.LogicalBounded | crates/vaultsync-core/src/clock.rs:60-99 | in every run no counter exceeds the number of steps, so none wraps in fewer than 2^32 |
| HybridClock.WallsWithinSystemTime | crates/vaultsync-core/src/clock.rs:54-99 | no wall ever exceeds the largest system time read by any replica |
| HybridClock.EventAdvances | crates/vaultsync-core/src/clock.rs:54-110 | in a run of fewer than 2^32 steps each step's timestamp is above its replica's clock and above the message it received |
| HybridClock.ClockNotBehind | crates/vaultsync-core/src/clock.rs:54-110 | no replica's clock is ever behind a timestamp it has produced |
| HybridClock.Causality | crates/vaultsync-core/src/clock.rs:54-110 | in every message-passing run with arbitrary system clocks, happened-before implies a strictly smaller timestamp |
| ClockReadings.WallIsLargestReading | crates/vaultsync-core/src/clock.rs:54-99 | in every run a timestamp's wall is exactly the largest of the system times read by its event and by every event that happened before it, and of the initial times of their replicas |
| ClockReadings.CounterIsZeroIff | crates/vaultsync-core/src/clock.rs:60-99 | below 2^32 events the counter is 0 exactly when the event's own reading is above every earlier one |
| ClockCounters.CounterIsLongestChain | crates/vaultsync-core/src/clock.rs:60-99 | and otherwise it is the length of the longest chain of events that passed a counter on: through the same wall, or by a message received while the wall was held |
| ClockThreads.NextKeepsInv | crates/vaultsync-core/src/clock.rs:57-80 | every atomic step keeps what each thread may rely on: walls it has seen are at most the shared one |
| ClockThreads.InterleavingsAreMonotone | crates/vaultsync-core/src/clock.rs:56-109 | in every interleaving of loads, exchanges and stores the shared wall never decreases, and a call begun after another returned gets a wall at least as large |
| ClockThreads.SharedClockIsMonotone | crates/vaultsync-core/src/clock.rs:41-109 | the same from a new clock with any number of threads |
| ClockThreadReadings.SharedWallIsLargestKnown | crates/vaultsync-core/src/clock.rs:54-109 | in every interleaving the shared wall is exactly the largest of the start and of what every call whose exchange succeeded had received and last read |
| ClockThreads.SerialCallsRise | crates/vaultsync-core/src/clock.rs:54-110 | while calls come one after the other, and steps and received counters stay below 2^32, every timestamp is strictly above all earlier ones |
| ClockOverlap.OverlappingCallsCollide | crates/vaultsync-core/src/clock.rs:67-80 | a schedule of two overlapping calls that return the same timestamp |
| ClockOverlap.CollideIff | crates/vaultsync-core/src/clock.rs:54-83 | below the largest counter, some schedule of two overlapping calls of `now` returns the same timestamp twice, exactly when both read system times not above the clock's wall |
| Lru.ApplyValid | crates/vaultsync-wasm/src/memory.rs:20-70 | every operation keeps the queue a list of the map's keys, once each, within the capacity |
| Lru.SmallerCacheWithinLarger | crates/vaultsync-wasm/src/memory.rs:20-70 | after any common run the smaller cache's recency order is the larger's restricted to its keys, with equal values |
| Lru.SmallerHitIsLargerHit | crates/vaultsync-wasm/src/memory.rs:20-31 | every hit of the smaller cache is a hit of the larger with the same value |
| LruRecency.QueueIsByLastUse | crates/vaultsync-wasm/src/memory.rs:20-45 | after any run the queue lists the keys in the order of their last use, a write or a read that hit |
| LruRecency.PresentIff | crates/vaultsync-wasm/src/memory.rs:20-70 | after one more operation of any run a key is present exactly when it was written, or was there, was not deleted, and was not the least recently used of a full cache that took in a new key |
| LruRecency.ValueIsLastWrite | crates/vaultsync-wasm/src/memory.rs:33-45 | and its value is the one last written |
| Lru.LruCache.constructor | crates/vaultsync-wasm/src/memory.rs:12-18 | an empty cache of the given size; size 0 still holds one entry |
| Lru.LruCache.Get | crates/vaultsync-wasm/src/memory.rs:20-31 | returns the entry and moves a present key, only, to the back of the queue |
| Lru.LruCache.Put | crates/vaultsync-wasm/src/memory.rs:33-45 | replaces or adds the entry, evicting the front when a new key finds the cache full |
| Lru.LruCache.Delete | crates/vaultsync-wasm/src/memory.rs:47-52 | removes the key from map and queue and returns its value |
| Lru.LruCache.ClearAll | crates/vaultsync-wasm/src/memory.rs:66-69 | empties map and queue |
| SegmentedLru.SegmentsStayConsistent | crates/vaultsync-wasm/src/memory.rs:94-139 | after any run each queue lists its segment's keys once, the segments are disjoint, and a present key has its last inserted value |
| SegmentedRecency.QueuesAreByLastUse | crates/vaultsync-wasm/src/memory.rs:94-119 | after any run both queues list their keys in the order of their last use |
| SegmentedRecency.ProtectedIff | crates/vaultsync-wasm/src/memory.rs:94-125 | a key is protected exactly when it was just read while present, or was protected, was not deleted, and was not the least recently used of a full segment that took in another |
| SegmentedRecency.ProbationIff | crates/vaultsync-wasm/src/memory.rs:94-125 | a key is on probation exactly when it was just written and not protected, or was there, was neither read nor deleted, and was not the least recently used of a full segment that took in another |
| SegmentedLru.TotalBoundedIff | crates/vaultsync-wasm/src/memory.rs:83-119 | every run keeps the total within the maximum exactly when both computed capacities are at least 1 |
| SegmentedLru.SmallestCacheOverflows | crates/vaultsync-wasm/src/memory.rs:83-92 | a cache of maximum 1 comes to hold two entries |
| SegmentedLru.RebalanceNeverEvicts | crates/vaultsync-wasm/src/memory.rs:141-160 | the rebalancing loop changes nothing in any consistent state |
| SegmentedLru.EvictDownKeepsLatest | crates/vaultsync-wasm/src/memory.rs:141-160 | in a segment above its capacity the loop would keep exactly the most recently used, down to the target but at least one |
| SegmentedLru.SegmentedLruCache.constructor | crates/vaultsync-wasm/src/memory.rs:83-92 | two empty segments of the truncated product and of what it leaves of the maximum, at least 1 each, whatever the product rounds to |
| SegmentedLru.SegmentedLruCache.Get | crates/vaultsync-wasm/src/memory.rs:94-108 | a hit in probation moves the entry to the protected segment |
| SegmentedLru.SegmentedLruCache.Put | crates/vaultsync-wasm/src/memory.rs:111-119 | a protected key is updated there, any other goes to probation |
| SegmentedLru.SegmentedLruCache.Delete | crates/vaultsync-wasm/src/memory.rs:121-125 | removes the key from the segment that holds it |
| SegmentedLru.SegmentedLruCache.ClearAll | crates/vaultsync-wasm/src/memory.rs:135-138 | empties both segments |
| SegmentedLru.SegmentedLruCache.RebalanceSegments | crates/vaultsync-wasm/src/memory.rs:141-160 | the loop evicts down to the target only above the maximum |
| Documents.ReadsReturnTheStore | crates/vaultsync-wasm/src/document_runtime.rs:145-229 | with colon-free document ids, after any run of reads, writes, removals, evictions, resets and caching of stored records, a read returns exactly the store's record |
| Documents.ReadIsRightIff | crates/vaultsync-wasm/src/document_runtime.rs:145-229 | the same with `delete_field`, any number of times: a read returns the store's record exactly when none is cached or no field was taken from it since it was last written, cached, removed or evicted |
| DocumentHistory.StoreIsHistory | crates/vaultsync-wasm/src/document_runtime.rs:50-80 | after any run the store has a record exactly when it was written and not deleted since, with exactly the fields, and values, last set since the last write of the record and not deleted |
| DocumentHistory.ReadIsHistory | crates/vaultsync-wasm/src/document_runtime.rs:145-229 | after any run `get` returns exactly that or, while the record is cached, exactly what it was when the copy was last written, cached or dropped |
| DocumentHistory.CachedIsRead | crates/vaultsync-wasm/src/document_runtime.rs:217-229 | after any run what `cache_record` puts in is what is read, and after `evict` the store is read |
| Documents.DeletedFieldIsRead | crates/vaultsync-wasm/src/document_runtime.rs:188-204 | a record written and stripped of a field is still read with it, also when the field is removed a second time |
| Documents.KeysCollideIff | crates/vaultsync-wasm/src/document_runtime.rs:145-160 | two records share a cache key exactly when a colon can be read as part of either id |
| Documents.ColonMixesRecords | crates/vaultsync-wasm/src/document_runtime.rs:188-198 | with a colon in a document id one record is read as another |
| Documents.DocumentRuntime.constructor | crates/vaultsync-wasm/src/document_runtime.rs:128-143 | an empty store and a cache of 5000 with a probation share of 0.2 |
| Documents.DocumentRuntime.GetDocument | crates/vaultsync-wasm/src/document_runtime.rs:145-160 | the cached record, else the store's; the cache is touched and not filled |
| Documents.DocumentRuntime.WriteField | crates/vaultsync-wasm/src/document_runtime.rs:169-186 | sets the field and caches the whole new record |
| Documents.DocumentRuntime.WriteRecord | crates/vaultsync-wasm/src/document_runtime.rs:188-198 | replaces and caches the record |
| Documents.DocumentRuntime.RemoveField | crates/vaultsync-wasm/src/document_runtime.rs:200-204 | removes the field from the store and leaves the cache |
| Documents.DocumentRuntime.RemoveRecord | crates/vaultsync-wasm/src/document_runtime.rs:206-213 | removes the record from store and cache |
| Documents.DocumentRuntime.CacheFields | crates/vaultsync-wasm/src/document_runtime.rs:217-222 | puts the given record into the cache only |
| Documents.DocumentRuntime.EvictRecord | crates/vaultsync-wasm/src/document_runtime.rs:224-229 | removes the record from the cache only |
| Documents.DocumentRuntime.ClearAll | crates/vaultsync-wasm/src/document_runtime.rs:286-294 | empties store and cache |
| BusMessages.RoundTripIff | crates/vaultsync-wasm/src/ipc.rs:161-321 | parsing an encoded message gives it back exactly when its strings avoid the separators in use, its lists and optional parts are expressible |
| BusMessages.BarCutsField | crates/vaultsync-wasm/src/ipc.rs:161-321 | a bar in a tab id cuts the id short |
| BusMessages.ParsedIsClean | crates/vaultsync-wasm/src/ipc.rs:207-321 | whatever text is parsed, the message is one that survives |
| BusMessages.EncodeInjective | crates/vaultsync-wasm/src/ipc.rs:161-204 | different surviving messages have different texts |
| BusWire.EncodeIsWire | crates/vaultsync-wasm/src/ipc.rs:161-204 | the text of each of the thirteen types: its tag, then its fields in order |
| BusWire.TruncatedIsRefused | crates/vaultsync-wasm/src/ipc.rs:207-321 | a message cut before its last field is no message |
| BusWire.ExtraFieldsIgnored | crates/vaultsync-wasm/src/ipc.rs:207-321 | further fields change nothing |
| BusWire.UnknownTagIsRefused | crates/vaultsync-wasm/src/ipc.rs:207-321 | a tag of no type is no message |
| BusWire.UnreadableNumbers | crates/vaultsync-wasm/src/ipc.rs:207-321 | a number that cannot be read counts as 0, a protocol version as 1 |
| Decimal.ParsePrint | crates/vaultsync-wasm/src/ipc.rs:207-321 | printing in decimal and parsing is the identity below every bound |
| Decimal.ParsesExactly | crates/vaultsync-wasm/src/ipc.rs:207-321 | a leading plus is accepted; an empty text, a minus and a number at or above the bound are not |
| Oplog.PendingSurvives | crates/vaultsync-wasm/src/indexeddb.rs:414-561 | in every run whose marks find the only waiting entry with their id, what is read as pending is the entries appended uploadable and not marked since, in append order, whatever was deleted |
| Oplog.UnmarkedIsPending | crates/vaultsync-wasm/src/indexeddb.rs:414-561 | in every run, repeated ids or not, the entries appended uploadable and not marked since are read as pending, in append order |
| Oplog.FreshIdsMarkFirst | crates/vaultsync-wasm/src/indexeddb.rs:520-561 | every run that appends no id twice is such a run |
| Oplog.MarkDropsIff | crates/vaultsync-wasm/src/indexeddb.rs:530-557 | a mark takes exactly the waiting entries with its id off the list, exactly when there is no second one |
| Oplog.LeavesIff | crates/vaultsync-wasm/src/indexeddb.rs:672-816 | in every run an id is gone exactly when deletes found as many of its entries synced, older than the cutoff and matching as were appended |
| Oplog.IdConservation | crates/vaultsync-wasm/src/indexeddb.rs:672-816 | for each id, entries appended equal entries present plus entries some delete found expired |
| Oplog.OlderThanRemoves | crates/vaultsync-wasm/src/indexeddb.rs:672-694 | exactly the synced entries of the namespace created more than the given seconds, times 1000 with 64-bit wrap, before the clock go; the rest keep their order |
| Oplog.BeforeRemoves | crates/vaultsync-wasm/src/indexeddb.rs:797-816 | exactly the synced entries of the namespace created before the cutoff go; the rest keep their order |
| Oplog.RecordBeforeRemoves | crates/vaultsync-wasm/src/indexeddb.rs:769-795 | exactly the synced entries of the record created before the cutoff go; the rest keep their order |
| Oplog.RecentStays | crates/vaultsync-wasm/src/indexeddb.rs:672-816 | in every run an entry created at or after every cutoff since given for its namespace or record never leaves |
| Oplog.SyncedWasAcknowledged | crates/vaultsync-wasm/src/indexeddb.rs:530-535 | every synced entry was appended so or acknowledged after its append |
| Oplog.UnacknowledgedStays | crates/vaultsync-core/src/client.rs:62-74 | an entry never acknowledged after its append is still there |
| Oplog.Conservation | crates/vaultsync-wasm/src/indexeddb.rs:672-816 | appended entries equal present entries plus the sum of the returned counts |
| Oplog.RepeatedIdStaysPending | crates/vaultsync-wasm/src/indexeddb.rs:530-541 | with a repeated id acknowledgements mark only the first copy |
| Oplog.OplogStore.AppendEntry | crates/vaultsync-wasm/src/indexeddb.rs:489-496 | the entry is added at the end |
| Oplog.OplogStore.ReadPending | crates/vaultsync-wasm/src/indexeddb.rs:498-518 | the first `limit` pending or optimistic entries of the namespace, in order |
| Oplog.OplogStore.MarkEntrySynced | crates/vaultsync-wasm/src/indexeddb.rs:520-550 | the first entry with the id becomes synced under the sequence, whatever it was |
| Oplog.OplogStore.MarkEntryFailed | crates/vaultsync-wasm/src/indexeddb.rs:552-561 | the first entry with the id becomes failed |
| Oplog.OplogStore.Retain | crates/vaultsync-wasm/src/indexeddb.rs:682-693 | exactly the entries that do not match stay, and the count is the difference |
| Oplog.OplogStore.DeleteSyncedOlderThan | crates/vaultsync-wasm/src/indexeddb.rs:672-694 | the synced entries of the namespace whose creation plus the age in milliseconds, with 64-bit wrap, is before the clock go, and no other |
| Oplog.OplogStore.DeleteSyncedRecordBefore | crates/vaultsync-wasm/src/indexeddb.rs:769-795 | the synced entries of the record created before the cutoff go, and no other |
| Oplog.OplogStore.DeleteSyncedBefore | crates/vaultsync-wasm/src/indexeddb.rs:797-816 | the synced entries of the namespace created before the cutoff go, and no other |
| UploadWorker.BackoffClosedForm | crates/vaultsync-core/src/client.rs:656-706 | after any replies whatever the state is the doubling sequence at the current streak of empty batches with writes pending |
| UploadWorker.OfflineIffBackingOff | crates/vaultsync-core/src/client.rs:656-706 | in every run offline holds exactly when the backoff is above 0, and then it is within 1000 and 30000 |
| UploadWorker.BackoffAfterRounds | crates/vaultsync-core/src/client.rs:677-692 | after `k` such rounds from online the wait is min(1000 * 2^(k-1), 30000) |
| UploadWorker.ConsumedIsServed | crates/vaultsync-core/src/client.rs:661-674 | every notification received or drained is followed by a pass, or one is about to begin |
| UploadWorker.IdleMeansServed | crates/vaultsync-core/src/client.rs:658-722 | with the channel empty and no pass about to begin, every notification ever posted has had a pass begun after it |
| UploadWorker.PassEndsIff | crates/vaultsync-core/src/client.rs:674-707 | in every run the replies of a pass but the last sent something, and the pass goes on exactly while the last one did; so the worker never waits right after a batch that sent writes |
| UploadWorker.WokenBy | crates/vaultsync-core/src/client.rs:661-671 | in every run a pass about to begin was woken by the timer when offline and by a notification when online |
| UploadWorker.BeginsUnaidedIff | crates/vaultsync-core/src/client.rs:658-722 | in every run, a worker that waits with an empty open channel begins a pass without a new notification exactly when it is offline |
| UploadWorker.UploadTask.SendBatches | crates/vaultsync-core/src/client.rs:674-707 | the inner loop uses replies up to the first that is empty or an error, all before it having sent something, and reacts to each |

## Left out

- SqliteDelivery.SubscriptionIsGapFree: asks that an id is only ever pushed to one namespace, because `SqliteOverlap.ForeignIdMisleads` shows a delivery outside the log otherwise; runs with compaction are in `SqliteCompacted.SentOrCovered`.
- ClockThreads.SerialCallsRise: one direction, since overlapping calls may still return distinct timestamps; for two calls the exact condition is `ClockOverlap.CollideIff`.
- ClockOverlap.CollideIff: two calls of `now` and no `receive`, below the largest counter.
- PostgresSubscription.SubscriptionIsGapFree: one coordinator's pushes only and no compaction; concurrent transactions that commit out of sequence order are not modelled.
- EventStreamResume.ResumesWithoutGap: every data line is assumed to decode to its row, the log to grow only at the end between connections, and each connection to serve the log after the requested cursor.
- Documents.ReadsReturnTheStore: subscriptions, access counters and metrics are not modelled, nor the mutexes; `set_field` notifies subscribers while it holds the store's lock.
- HybridClock.HybridLogicalClock.Tick: calls on one clock do not overlap here, so the exchange succeeds; overlapping calls are in `ClockThreads`.
- RedisTail.PullTail: entries are readable and fit the encoding, as `push` writes them; the condition at the last 64-bit sequence is exact (`RedisTail.TailIsReadIff`).
- Oplog.PendingSurvives: a mark must find the only waiting entry with its id, because of `Oplog.RepeatedIdStaysPending`; distinct ids suffice, and without the condition `Oplog.UnmarkedIsPending` says that nothing unmarked is missing.
- How the 64-bit product of maximum and probation ratio rounds: the truncated product is a parameter of the segmented cache, and every result holds for any value of it.
- SQL errors, I/O errors and task cancellation: every query succeeds.
- Sequence numbers of the tables are unbounded naturals; they agree with the 64-bit columns below 2^63. Bus messages and Redis ids use exact widths, `usize` being 32 bits in the browser.
- Redis `push`, which answers a repeat with 0, and Redis `compact_oplog`, which deletes by range whatever the record: they do not have the properties proved here.
- Cloudflare `push`, and the counters of its `compact`, which grow by one per snapshot whether or not anything was deleted.
- The pending-count cache and its channel in the upload worker, and the sleep itself.
- CRDT merging, encryption, the download queue, leader election, view materialization, peer-to-peer transports.
- Authentication, token stores, command line, metrics, logging and generated bindings.
- Small tables and timers (`runtime_state.rs`, `capability.rs`, `event_bus.rs`, `maintenance_runtime.rs` and their like): they would only add easy members.
