# Verified models of mycscompanion's core

Four parts of the platform, each written in the form its source has (classes with the
source's fields, loops where it has loops) and proved against functions and step systems
about which the main results are stated.

**The storage engine's reference implementation** (`ByteStrings`, `WalFormat`, `WalCompaction`,
`Files`, `WalStore`, `WalHistory`, `KvFormat`, `KvStore`). The write-ahead log is a byte
sequence; a file knows how much of itself is durable, a crash keeps that and any prefix of the
rest, and rename is atomic. `ReopeningRecovers` covers every history of writes, compactions,
closes and crashes; `AppendSafeIffNoTail` says exactly when appending is safe;
`CompactionPreservesMeaning` and `CompactionIsOptimal` cover compaction in every iteration
order; `LogStoreRefinesSimpleStore` says that the log store is a faithful speed-up of the store
that rewrites its file.

**The execution event pipeline** (`Events`, `StreamRoute`, `StreamProtocol`, `StreamNoLoss`,
`StreamLosses`, `SseText`, `SseClient`, `Reconnect`, `LiveSessions`, `ExecutionProcessor`). The
worker numbers and publishes events, the route replays, subscribes and replays again, the
browser parses text in chunks, reconnects with Last-Event-ID and deduplicates.
`WrittenEventsAreSafe` holds of every interleaving over any log; `NothingLostIff` says exactly
when nothing is lost, whichever of publishing and logging leads, retries included;
`ParserUndoesFormatter`, `ReconnectingAppliesDistinct`, `FollowingAppliesAll`,
`PipelineDeliversLastAttempt`, `PageFollowsAttempt` and `PageShowsAttempt` follow the events to the
page; `TextAnnounces`, `AnswerIsShown`, `BenchmarksAreShown` and `PageIsInOrder` say what they carry.

**The circuit breaker and the rate limiter** (`CircuitBreaker`, `RateLimiter`,
`RateLimiterRaces`), over all runs. `EveryRunIsSound` holds with outcomes that arrive late, in any
state, and `FailureStartsWait` says what each failure does to later calls; `EveryWindowIsBounded`,
`DeniedIffWindowFull` and `RemainingAreAdmitted` are the limiter's sequential contract under a clock
that does not go back, `ConcurrentBoundIsExact` the overrun of its two phases.

**Two codecs of the Go executor** (`ShellQuote`, `TruncateOutput`): argument quoting against the
shell's token and quoting rules (POSIX.1-2017, Shell Command Language, sections 2.2 and 2.3), and
output truncation against the UTF-8 grammar (RFC 3629, section 4).

## Where the code does less than one might expect

- Opening a log with a torn tail does not cut the tail, and the next append lands behind it
  (`wal.go:48`). `AppendSafeIffNoTail` and `WritesSurviveIffNotTorn` say what that costs; the
  recovery theorem therefore asks for a compaction before the next write.
- Lengths of 2^32 and more wrap around when written; the round trips say "exactly when they fit".
- Two things lose an event on the live path, and `NothingLostIff` says that nothing else does. A
  live message handled before the second scan hides an event that came before the handler
  (`EarlyMessageLosesEvent`); and since the publisher sends the channel message before the list
  append, an event can be too late for the handler's channel and too early for both scans
  (`PublishFirstLosesEvent`).
- The submit route publishes the queued event after the job is enqueued (`submit.ts:99` and
  `submit.ts:152`), so it can be logged behind the worker's first events, where it wipes them from
  the page (`LateQueuedWipes`; `NothingWipedIff` is exact). What is applied is not affected
  (`PipelineDeliversLastAttempt`).
- The first scan and the replay of a finished submission compare ids with Last-Event-ID only, so
  a retried attempt's id 1 is written again (`RetriesShowOnTheWire`, `RetriesShowWhenFinished`).
  The second scan and the live handler repeat nothing (`SecondReplayKeepsOrder`,
  `MessageKeepsOrder`), and the page's deduplication repairs the rest (`RetriesDeduplicate`).
- A compile failure publishes no terminal event, and a runtime failure publishes its criteria
  after the terminal one, where no client reads them (`TerminalEventIff`, and `Owed` in
  `PipelineDeliversLastAttempt`).
- A failure threshold of 0 breaks the promise about consecutive failures at once (`EveryRunIsSound`);
  with `halfOpenMaxAttempts` of 0 it never recovers (`RetryAfterIsExact`).
- Concurrent checks of one key can overrun the limit by c - 1 (`ConcurrentBoundIsExact`), and a
  set that was overrun makes the reported wait too short (`WaitOfDenial`).
- An over-long output that does not begin with a character is truncated to the notice alone
  (`MalformedStartLosesAll`): the kept part ends at the first malformed character, however early.
- With a window of no length a request is never in its own window, so the remaining count is one
  less than the room left (`RemainingIsRoom`) and never runs out (`RemainingAreAdmitted`).

## Model

| member | source | states |
|---|---|---|
| `WalFormat.DecodeExact` | content/milestones/02-storage-engine/reference-impl/wal.go:91-149 | reading a record yields `r` if and only if `r`'s lengths fit in 32 bits and the bytes begin with what appending `r` writes |
| `WalFormat.RecordRoundTrip` | content/milestones/02-storage-engine/reference-impl/wal.go:91-149 | a record is read back as written exactly when its key and value lengths are below 2^32 |
| `WalFormat.TornRecord` | content/milestones/02-storage-engine/reference-impl/wal.go:112-149 | a record cut short anywhere is not read at all |
| `ByteStrings.BigEndian` | content/milestones/02-storage-engine/reference-impl/wal.go:95-96 | a length is written most significant byte first |
| `WalFormat.RecordLayout` | content/milestones/02-storage-engine/reference-impl/wal.go:89-99 | where every byte of a put and of a delete lies: the operation (1 or 2), the two big-endian lengths, the key, the value; a delete has no value |
| `WalFormat.Decompose` | content/milestones/02-storage-engine/reference-impl/wal.go:107-160 | every file is whole records followed by a tail that holds none |
| `WalFormat.ReplayIsFold` | content/milestones/02-storage-engine/reference-impl/wal.go:107-160 | replaying any file applies the whole records it holds, in order, and nothing else |
| `WalFormat.LastWriteWins` | content/milestones/02-storage-engine/reference-impl/wal.go:151-156 | after any records a key has the value of the last put on it, unless a delete came after that; an unknown operation touches nothing |
| `WalFormat.ReplayPrefix` | content/milestones/02-storage-engine/reference-impl/wal.go:107-160 | for every byte prefix, replaying it gives the fold of the records wholly inside it |
| `WalFormat.ShortTailIgnored` | content/milestones/02-storage-engine/reference-impl/wal.go:112-135 | a tail shorter than the nine-byte header changes nothing |
| `WalFormat.AppendBehindTail` | content/milestones/02-storage-engine/reference-impl/wal.go:47-51 | what is appended is read as a continuation of the tail already there |
| `WalFormat.ProbeIsLost` | content/milestones/02-storage-engine/reference-impl/wal.go:47-51 | behind any torn tail there is a put that never reaches the table |
| `WalFormat.AppendSafeIffNoTail` | content/milestones/02-storage-engine/reference-impl/wal.go:47-104 | appending a record has that record's effect on every later replay, for every record, if and only if the log does not end in a torn record |
| `WalCompaction.CompactionPreservesMeaning` | content/milestones/02-storage-engine/reference-impl/wal.go:162-201 | whatever order the map is iterated in, replaying the compacted file gives the same map, if and only if every length fits; the file then has no tail |
| `WalCompaction.CompactionSize` | content/milestones/02-storage-engine/reference-impl/wal.go:174-201 | all compactions of a map have the same length |
| `WalCompaction.CompactionIsOptimal` | content/milestones/02-storage-engine/reference-impl/wal.go:162-201 | no file that replays to the map, torn or not, is shorter than its compaction |
| `WalStore.FillBuffer` | content/milestones/02-storage-engine/reference-impl/wal.go:93-98 | the buffer filled in place is the encoded record |
| `WalStore.WALStore.constructor` | content/milestones/02-storage-engine/reference-impl/wal.go:27-54 | opening creates the file if needed, leaves its bytes alone, and rebuilds the map by replay; the position is the physical end |
| `WalStore.WALStore.Put` | content/milestones/02-storage-engine/reference-impl/wal.go:66-75 | the map gains the entry, the log gains exactly its record and is synced, and the only intermediate disk has the record unsynced |
| `WalStore.WALStore.Delete` | content/milestones/02-storage-engine/reference-impl/wal.go:78-87 | the same for a delete record |
| `WalStore.WALStore.AppendEntry` | content/milestones/02-storage-engine/reference-impl/wal.go:91-104 | one write puts the whole record at the end of the log |
| `WalStore.WALStore.ReadRecord` | content/milestones/02-storage-engine/reference-impl/wal.go:113-149 | one round of field reads yields the record at the position, or none when any field is cut short |
| `WalStore.WALStore.ReplayWAL` | content/milestones/02-storage-engine/reference-impl/wal.go:107-160 | the reading loop ends, at the end of the file, with the replayed map |
| `WalStore.WALStore.Compact` | content/milestones/02-storage-engine/reference-impl/wal.go:164-231 | the log becomes a compaction of the map, and at every moment before the rename only the temporary file differs |
| `WalStore.WALStore.WriteLiveEntries` | content/milestones/02-storage-engine/reference-impl/wal.go:174-201 | the loop over the map fills the temporary file with one put per entry |
| `WalStore.WALStore.FinishCompact` | content/milestones/02-storage-engine/reference-impl/wal.go:203-228 | the rename makes the temporary file the log, in one step |
| `WalStore.WALStore.Close` | content/milestones/02-storage-engine/reference-impl/wal.go:234-243 | closing syncs the log and changes no byte |
| `WalHistory.CutAppend` | content/milestones/02-storage-engine/reference-impl/wal.go:91-104 | whatever part of an append survives a crash, the log replays as before or as with the record, and it is torn exactly when a proper part survived |
| `WalHistory.WriteStep` | content/milestones/02-storage-engine/reference-impl/wal.go:66-87 | a write that returns, on a log that is not torn, keeps the log recoverable |
| `WalHistory.CrashInWriteStep` | content/milestones/02-storage-engine/reference-impl/wal.go:66-104 | so does a crash inside such a write, before or after the sync |
| `WalHistory.CompactStep` | content/milestones/02-storage-engine/reference-impl/wal.go:164-231 | so does a compaction, which also removes a torn tail |
| `WalHistory.CrashInCompactStep` | content/milestones/02-storage-engine/reference-impl/wal.go:164-231 | so does a crash at any moment of a compaction |
| `WalHistory.EveryHistoryIsRecoverable` | content/milestones/02-storage-engine/reference-impl/wal.go:27-243 | in every history of opens, writes, compactions, closes and crashes in which no write is made behind a torn record, the log replays to the acknowledged map, and is torn exactly when a write was cut and not compacted away since |
| `WalHistory.ReopeningRecovers` | content/milestones/02-storage-engine/reference-impl/wal.go:27-243 | reopening after any history yields all acknowledged writes, each write cut by a crash counted wholly or not at all, if no write is made behind a torn record |
| `WalHistory.WriteBehindTornRecordIsLost` | content/milestones/02-storage-engine/reference-impl/wal.go:47-51 | that condition is needed: on a torn log some write returns and is forgotten |
| `WalHistory.WritesSurviveIffNotTorn` | content/milestones/02-storage-engine/reference-impl/wal.go:27-104 | every write that returns is found again by replay if and only if the log is not torn when it is made |
| `KvFormat.ReadExact` | content/milestones/02-storage-engine/reference-impl/kv.go:83-149 | reading an entry yields `r` if and only if its lengths fit and the bytes begin with what saving it writes |
| `KvFormat.EntryLayout` | content/milestones/02-storage-engine/reference-impl/kv.go:84-110 | where every byte of an entry lies: the key behind its big-endian length, then the value behind its own |
| `KvFormat.TornEntry` | content/milestones/02-storage-engine/reference-impl/kv.go:121-147 | an entry cut short, but not to nothing, is an error |
| `KvFormat.LoadPrefix` | content/milestones/02-storage-engine/reference-impl/kv.go:116-153 | loading a prefix of a saved file succeeds exactly at an entry boundary, and yields the entries before it |
| `KvFormat.SaveLoadRoundTrip` | content/milestones/02-storage-engine/reference-impl/kv.go:83-153 | saving and loading gives the map back, in any iteration order, if and only if every length fits |
| `KvStore.KVStore.NewKVStore` | content/milestones/02-storage-engine/reference-impl/kv.go:20-38 | opening creates the file if needed and loads it, or fails exactly when the file does not hold whole entries |
| `KvStore.KVStore.Put` | content/milestones/02-storage-engine/reference-impl/kv.go:66-72 | the map gains the entry and the file is a save of the new map |
| `KvStore.KVStore.Delete` | content/milestones/02-storage-engine/reference-impl/kv.go:75-81 | the map loses the key and the file is a save of the new map |
| `KvStore.KVStore.SaveToDisk` | content/milestones/02-storage-engine/reference-impl/kv.go:85-113 | the loop leaves a file with each entry once, in some order |
| `KvStore.KVStore.ReadOneEntry` | content/milestones/02-storage-engine/reference-impl/kv.go:121-147 | one round of the loading loop tells the end of the file, a cut entry, or the entry |
| `KvStore.KVStore.LoadFromDisk` | content/milestones/02-storage-engine/reference-impl/kv.go:116-153 | the loading loop succeeds exactly when the file holds whole entries, and then has applied them all |
| `KvStore.KVStore.Close` | content/milestones/02-storage-engine/reference-impl/kv.go:41-54 | closing saves once more and syncs |
| `KvStore.WalRunInvariant` | content/milestones/02-storage-engine/reference-impl/wal.go:27-160 | after any successful operations, compactions included, the log is whole records that replay to the map |
| `KvStore.LogStoreRefinesSimpleStore` | content/milestones/02-storage-engine/reference-impl/kv.go:11-153 | for every sequence of successful puts, deletes, reopens and compactions, whatever order either store writes its entries in, both hold the same map |
| `KvStore.SimpleStoreReopens` | content/milestones/02-storage-engine/reference-impl/kv.go:20-54 | the simple store's reopening never fails in such a run, and loads the log store's map |
| `Events.ReadLogIsOwed` | apps/backend/src/plugins/execution/routes/stream.ts:174-198 | over an increasing log, a reader that keeps the highest id outputs exactly the sequenced events above its start, in order, through the first terminal one |
| `StreamRoute.StreamConnection.WriteEvent` | apps/backend/src/plugins/execution/routes/stream.ts:144-149 | an open connection writes the event, a closed one writes nothing |
| `StreamRoute.StreamConnection.ServeFinished` | apps/backend/src/plugins/execution/routes/stream.ts:158-170 | the replay of a finished submission writes what FinishedReplay lists, or nothing if the client has gone, and then is closed |
| `StreamRoute.StreamConnection.ServeFirstReplay` | apps/backend/src/plugins/execution/routes/stream.ts:174-198 | the first scan, with its skips, early return and highest id |
| `StreamRoute.StreamConnection.HandleMessage` | apps/backend/src/plugins/execution/routes/stream.ts:211-228 | the live handler, with its deduplication and close |
| `StreamRoute.StreamConnection.ServeSecondReplay` | apps/backend/src/plugins/execution/routes/stream.ts:230-248 | the second scan |
| `StreamRoute.FirstReplayWrites` | apps/backend/src/plugins/execution/routes/stream.ts:176-198 | over any log the first scan writes, in order, exactly the entries above Last-Event-ID, and for a client without one those that say it is queued, through the first terminal one above it |
| `StreamRoute.FinishedReplayWrites` | apps/backend/src/plugins/execution/routes/stream.ts:160-167 | over any log the replay of a finished submission sends exactly the entries above Last-Event-ID, heartbeats, and the queued event to a client without an id, in order |
| `StreamRoute.MessageWrites` | apps/backend/src/plugins/execution/routes/stream.ts:211-228 | a live message is passed on exactly if it is a heartbeat or has an id above the highest; a queued event never is |
| `StreamRoute.FirstReplayReads` | apps/backend/src/plugins/execution/routes/stream.ts:176-198 | over a log whose ids never go down and whose repeats are of the same event, comparing with Last-Event-ID does, for a reader of what is written, what comparing with the highest id would |
| `StreamRoute.FirstReplayWritesOwed` | apps/backend/src/plugins/execution/routes/stream.ts:176-198 | over any log the first scan writes exactly the logged sequenced events above Last-Event-ID through the first terminal one, repeats included |
| `StreamRoute.FirstReplayIncreasesIff` | apps/backend/src/plugins/execution/routes/stream.ts:176-198 | over any log, the ids the first scan writes go up strictly if and only if those of the owed entries do |
| `StreamRoute.FinishedReplayIncreasesIff` | apps/backend/src/plugins/execution/routes/stream.ts:158-168 | over any log, the ids a finished submission's replay writes go up strictly if and only if the logged ids above Last-Event-ID do |
| `StreamRoute.MessageReads` | apps/backend/src/plugins/execution/routes/stream.ts:211-228 | a live message does to a connection, for such a reader, what one log entry does |
| `StreamRoute.SecondReplayReads` | apps/backend/src/plugins/execution/routes/stream.ts:231-248 | the second scan reads its whole snapshot as such a reader, over any log |
| `StreamRoute.FirstReplayKeepsOrder` | apps/backend/src/plugins/execution/routes/stream.ts:176-198 | over any log, ids written are above Last-Event-ID, the highest is remembered, and nothing follows a terminal event |
| `StreamRoute.SecondReplayKeepsOrder` | apps/backend/src/plugins/execution/routes/stream.ts:231-248 | the same for the second scan, which moreover repeats no id: what is written goes up strictly if it did before |
| `StreamRoute.MessageKeepsOrder` | apps/backend/src/plugins/execution/routes/stream.ts:211-228 | the same for the live handler |
| `StreamProtocol.StepIsSafe` | apps/backend/src/plugins/execution/routes/stream.ts:115-248 | each step of log, channel and connection keeps the safety invariant, over any log |
| `StreamProtocol.EveryRunIsSafe` | apps/backend/src/plugins/execution/routes/stream.ts:115-248 | so does every interleaving, in whatever order events are published and logged |
| `StreamProtocol.WrittenEventsAreSafe` | apps/backend/src/plugins/execution/routes/stream.ts:115-248 | in every interleaving over any log, everything written was logged or published, has an id above Last-Event-ID, and nothing follows a terminal event; the ids written go up strictly if and only if those the first scan came upon did, and over an increasing log they do |
| `StreamProtocol.NoQueuedAfterFirstScan` | apps/backend/src/plugins/execution/routes/stream.ts:200-248 | in every interleaving, a connection writes no queued event after its first scan, whenever one is published or logged |
| `StreamProtocol.PublisherKeepsOneOrder` | apps/backend/src/shared/event-publisher.ts:14-20 | wherever other steps fall between the worker's two commands for each numbered event, the submit route's queued event among them, the numbered events are published and logged in one order |
| `StreamNoLoss.WaitsOn` | apps/backend/src/plugins/execution/routes/stream.ts:211-228 | the first message past the gap decides: it is the awaited event once more, and all is read, or it is a later one, and the awaited event is lost for good |
| `StreamNoLoss.ScanMove` | apps/backend/src/plugins/execution/routes/stream.ts:230-248 | whichever of channel and log leads, the second scan brings a connection that lost nothing to the further of its snapshot and what it has received, or leaves it waiting |
| `StreamNoLoss.EveryRunIsFaithful` | apps/backend/src/plugins/execution/routes/stream.ts:172-248 | whichever of publishing and logging the numbered events leads, at every moment a connection that is not cut has written, to a reader, the part of the stream it accounts for, or has lost an event of the gap |
| `StreamNoLoss.NothingLostIff` | apps/backend/src/plugins/execution/routes/stream.ts:172-248 | with the numbered events published and logged in one order, either side leading, and repeats allowed as retries make them: a reader of an uncut connection that has caught up or closed itself has taken exactly what the stream holds for it, in order and once each, if and only if no event that came only between the first snapshot and the handler came too late: after a message was handled early, or after the second scan |
| `StreamNoLoss.NothingOwedIsLostIff` | apps/backend/src/plugins/execution/routes/stream.ts:172-248 | if the ids go up strictly, the same of the text itself: exactly what is owed is written, under the same condition |
| `StreamNoLoss.PushFirstMissesNothing` | apps/backend/src/plugins/execution/routes/stream.ts:172-248 | if each numbered event is logged before it is published, the second scan reaches past the gap |
| `StreamNoLoss.OnlyEarlyMessagesLose` | apps/backend/src/plugins/execution/routes/stream.ts:211-238 | so that then only an early message can make an event come too late |
| `StreamLosses.EarlyMessageLosesEvent` | apps/backend/src/plugins/execution/routes/stream.ts:211-238 | the first part is needed: a run that always logs first loses an event to an early message |
| `StreamLosses.PublishFirstLosesEvent` | apps/backend/src/shared/event-publisher.ts:17-20 | the second part is needed: in the publisher's own order an event is lost although no message is handled early |
| `SseText.DecimalRoundTrip` | apps/backend/src/plugins/execution/routes/stream.ts:25 | a sequence id printed in an id line is read back as that number |
| `SseText.FormatIsLines` | apps/backend/src/plugins/execution/routes/stream.ts:21-32 | what is written for an event or heartbeat is its field lines joined by newlines and a blank line; TextAnnounces says what these lines mean |
| `SseText.BodyShape` | apps/backend/src/plugins/execution/routes/stream.ts:21-32 | and splits back into exactly those lines, with no blank line inside |
| `SseText.TextAnnounces` | apps/backend/src/plugins/execution/routes/stream.ts:21-28 | reading the id and event lines of any event's text gives back its id and kind, by the names of the event union; the name is complete, error or timeout exactly for a terminal event; the data line comes last |
| `SseText.BlocksOfConcat` | apps/webapp/src/hooks/use-sse.ts:70-74 | splitting at blank lines and carrying the rest over gives the same blocks wherever the text is cut |
| `SseText.BlocksOfPrefix` | apps/webapp/src/hooks/use-sse.ts:70-74 | the complete blocks of a stream cut anywhere are those of the items wholly written by then |
| `SseClient.EventSource.Connect` | apps/webapp/src/hooks/use-sse.ts:49-64 | connecting sends the last id if there is one, and starts with nothing carried over |
| `SseClient.EventSource.OnChunk` | apps/webapp/src/hooks/use-sse.ts:70-113 | one chunk handles its complete blocks in order, stops at a terminal event, and carries the rest over |
| `SseClient.EventSource.OnBlock` | apps/webapp/src/hooks/use-sse.ts:76-112 | one block: blank and comment blocks say nothing, the last id counts, data lines are joined |
| `SseClient.BlockMeans` | apps/webapp/src/hooks/use-sse.ts:79-112 | what any block does, formatted by the server or not: the last id line sets the id to reconnect with, and the data lines, each with or without a space after the colon and joined by newlines, are one event, delivered if it parses and closing the client if terminal |
| `SseClient.ChunkingDoesNotMatter` | apps/webapp/src/hooks/use-sse.ts:62-114 | however the text is cut into chunks, the client ends up as if it came in one piece |
| `SseClient.ParserUndoesFormatter` | apps/webapp/src/hooks/use-sse.ts:62-114 | a stream of formatted events and heartbeats, cut off anywhere and in any chunks, gives the client the events and ids of the items wholly written, through the first terminal one |
| `SseClient.ParseSSEStream` | apps/webapp/src/lib/parse-sse-stream.ts:1-22 | the second parser hands on the first data line of each complete non-comment block of the whole text |
| `SseClient.FirstDataLine` | apps/webapp/src/lib/parse-sse-stream.ts:14 | the first data line of a block, if there is one |
| `SseClient.YieldMeans` | apps/webapp/src/lib/parse-sse-stream.ts:12-16 | any block yields the text of its first data line, if it has one and does not begin as a comment |
| `SseClient.GeneratorUndoesFormatter` | apps/webapp/src/lib/parse-sse-stream.ts:4-18 | over formatted events and heartbeats, in any chunks, it hands on every event's JSON text, in order |
| `Reconnect.SubmissionOutput.HandleSSEEvent` | apps/webapp/src/hooks/use-submit-code.ts:123-222 | an event is applied unless its id is not above the highest applied; the queued event starts the output afresh, and other events with a line are added behind it |
| `Reconnect.AppliedIsNewInOrder` | apps/webapp/src/hooks/use-submit-code.ts:123-129 | whatever is delivered, an event with an id is applied exactly if that is above every id delivered before it, any other event always, in the order delivered |
| `Reconnect.PageIsInOrder` | apps/webapp/src/hooks/use-submit-code.ts:97-222 | whatever is delivered, the page shows, in the order applied, exactly the events applied from the last queued one on that have a line (all but heartbeats and benchmark and criteria results); a queued event is only ever its first line, and the ids go up |
| `Reconnect.Serve` | apps/backend/src/plugins/execution/routes/stream.ts:160-167 | over any log, what one connection's replay sends, cut after any number of events, moves the client on without gap or repeat |
| `Reconnect.ConnectReads` | apps/webapp/src/hooks/use-sse.ts:49-114 | the same for a connection of text in any chunks, cut after any character; one that ran to its end leaves nothing unread unless it closed the client |
| `Reconnect.SessionReads` | apps/webapp/src/hooks/use-sse.ts:35-144 | the same for any number of connections; if the first terminal event is new, the client is closed exactly when it has come to that |
| `Reconnect.ReconnectingAppliesDistinct` | apps/webapp/src/hooks/use-submit-code.ts:123-129 | over any log, through any sequence of cut connections and reconnects, what is applied is a beginning of the logged events whose id is above all before it, and all of them once a connection ran to its end without closing the client |
| `Reconnect.ReconnectingAppliesEachIdOnce` | apps/webapp/src/hooks/use-submit-code.ts:123-129 | if the first terminal event is new: what is applied is a beginning of the first event with each id, in order, through that one, and all of these once the client has closed or a connection ran to its end, if and only if their ids go up |
| `Reconnect.TerminalAppliedIffNew` | apps/webapp/src/hooks/use-submit-code.ts:123-129 | a client closes at the first terminal event, but applies it if and only if its id is above all before it |
| `Reconnect.ClosingAppliesTerminalIff` | apps/webapp/src/hooks/use-sse.ts:97-107 | every client that closes, after whatever session, has applied the first terminal event if and only if that is numbered above everything before it |
| `Reconnect.NothingWipedIff` | apps/webapp/src/hooks/use-submit-code.ts:131-135 | whatever is delivered, every line drawn is still on the page if and only if no queued event was handled after it |
| `Reconnect.SessionKeepsPage` | apps/backend/src/plugins/execution/routes/stream.ts:164-165 | if no queued event is logged behind a numbered one, no session of reconnects ever wipes a line |
| `Reconnect.SessionShowsApplied` | apps/webapp/src/hooks/use-submit-code.ts:97-222 | the numbered lines of the page are then exactly the applied events that have a line, in order |
| `Reconnect.LateQueuedWipes` | apps/backend/src/plugins/execution/routes/submit.ts:151-154 | logged behind the first output, as the submit route allows, it wipes that |
| `LiveSessions.WrittenIsRead` | apps/backend/src/plugins/execution/routes/stream.ts:172-248 | at any moment of a run that has lost nothing, what is written is read as a part of the stream, and as all of it once drained |
| `LiveSessions.TextReads` | apps/webapp/src/hooks/use-sse.ts:49-114 | the page makes of that connection's text, heartbeats included, in any chunks and cut anywhere, what a reader of a part of the log would |
| `LiveSessions.FollowingAppliesAll` | apps/webapp/src/hooks/use-submit-code.ts:123-129 | through any number of live connections that lost nothing and finished replays, each cut anywhere, over a log whose ids never go down and whose repeats are of the same event: the page has applied a beginning of what a reader of the log takes, in order and once each, and all of it once it has closed or a connection was complete |
| `ExecutionProcessor.EventPublisher.Publish` | apps/backend/src/shared/event-publisher.ts:14-20 | each event goes to the channel and then to the end of the log; the two commands are issued in that order, one event after the other, and are not one step |
| `ExecutionProcessor.Processor.Emit` | apps/backend/src/worker/processors/execution-processor.ts:147-152 | an event is published under the next number |
| `ExecutionProcessor.Processor.EvaluateAndPublishCriteria` | apps/backend/src/worker/processors/execution-processor.ts:117-136 | criteria results are published once, or not at all when there are none or evaluating fails |
| `ExecutionProcessor.Processor.RunBenchmarks` | apps/backend/src/worker/processors/execution-processor.ts:379-442 | the benchmark loop publishes progress for each, results for those that have any, and ends at an exception |
| `ExecutionProcessor.Processor.Report` | apps/backend/src/worker/processors/execution-processor.ts:279-470 | after an answer: timeout, compile error, output with benchmarks, or runtime error, then criteria and completion, in the order the code has |
| `ExecutionProcessor.Processor.ReportResult` | apps/backend/src/worker/processors/execution-processor.ts:316-443 | a compile error, the output and its benchmarks, or a runtime error, with the text AnswerIsShown names |
| `ExecutionProcessor.Processor.Process` | apps/backend/src/worker/processors/execution-processor.ts:111-527 | every attempt sets the status running if it found it queued, ends completed, failed, or put back to queued and rethrown, and the log grows by exactly that attempt's events numbered from 1 |
| `ExecutionProcessor.TerminalEventIff` | apps/backend/src/worker/processors/execution-processor.ts:322-470 | an attempt publishes exactly one terminal event unless it ends silently (nothing to run, compile error, retry), last unless a runtime failure has criteria |
| `ExecutionProcessor.CompletedIffPublished` | apps/backend/src/worker/processors/execution-processor.ts:445-482 | the submission is completed exactly when a completion event is published, which is then the last event |
| `ExecutionProcessor.AttemptIncreases` | apps/backend/src/worker/processors/execution-processor.ts:114-152 | an attempt's ids go up strictly, from the preparing event numbered 1 |
| `ExecutionProcessor.AttemptIsCounted` | apps/backend/src/worker/processors/execution-processor.ts:147-152 | the ids count 1, 2, 3 and so on, from a preparing event of kind output |
| `ExecutionProcessor.UnansweredEvents` | apps/backend/src/worker/processors/execution-processor.ts:159-208 | without an answer the preparing event is followed by one error if the code is too large or the service failed for good, and by nothing if there is no code or the attempt is retried |
| `ExecutionProcessor.TimedOutEvents` | apps/backend/src/worker/processors/execution-processor.ts:280-316 | a time-out is the last event, behind the criteria if there are any |
| `ExecutionProcessor.AnswerIsShown` | apps/backend/src/worker/processors/execution-processor.ts:316-352 | the second event is numbered 2 and carries what the program wrote: stdout as output on exit code 0, stderr as a compile error on 2, stderr as an error otherwise; a failure adds only its criteria |
| `ExecutionProcessor.BenchmarksAreShown` | apps/backend/src/worker/processors/execution-processor.ts:379-482 | behind a success's output each benchmark through the first that throws is shown at its place, progress and then a result exactly if it has one; then criteria, if any, and completion, and nothing else |
| `ExecutionProcessor.RunningFollowsQueued` | apps/backend/src/worker/processors/execution-processor.ts:139-145 | through any attempts, also repeated after the submission has ended, the status is set running exactly when it was queued, and no attempt leaves it running |
| `ExecutionProcessor.RetriesOnlyPrepare` | apps/backend/src/worker/processors/execution-processor.ts:485-500 | each rethrown attempt has published exactly the preparing event |
| `ExecutionProcessor.RetriesDeduplicate` | apps/backend/src/worker/processors/execution-processor.ts:485-500 | after any number of retries, wherever queued events lie, the log deduplicated by highest id is the last attempt's events |
| `ExecutionProcessor.ReadRetried` | apps/backend/src/worker/processors/execution-processor.ts:485-500 | reading a retried log, wherever queued events lie in it, is reading the last attempt alone |
| `ExecutionProcessor.RetriesShowOnTheWire` | apps/backend/src/plugins/execution/routes/stream.ts:176-198 | the first scan of a retried log writes strictly increasing ids if and only if there was no retry or the client is past id 1 |
| `ExecutionProcessor.RetriesShowWhenFinished` | apps/backend/src/plugins/execution/routes/stream.ts:158-168 | the same for the replay once it has finished |
| `ExecutionProcessor.PipelineDeliversLastAttempt` | apps/backend/src/worker/processors/execution-processor.ts:105-528 | from worker to a page that connects once the submission has finished: whatever the retries, the place of the queued event, cuts, chunks and reconnects, the page applies the last attempt's events in order and once each, through the terminal one |
| `ExecutionProcessor.PageShowsAttempt` | apps/webapp/src/hooks/use-submit-code.ts:97-222 | and, unless the queued event is logged behind a numbered one, the numbered lines of the page are exactly the last attempt's, in order and once each; the second is what the program wrote |
| `ExecutionProcessor.PageFollowsAttempt` | apps/backend/src/worker/processors/execution-processor.ts:105-528 | the same for a page that follows the submission, retries and all, through live connections that lost nothing and finished replays, each cut anywhere |
| `CircuitBreaker.CircuitBreaker.constructor` | apps/backend/src/plugins/tutor/services/circuit-breaker.ts:101-110 | a new breaker is closed with the base timeout |
| `CircuitBreaker.CircuitBreaker.GetState` | apps/backend/src/plugins/tutor/services/circuit-breaker.ts:136-142 | reading the state moves a breaker that is due to half open |
| `CircuitBreaker.CircuitBreaker.GetRetryAfterMs` | apps/backend/src/plugins/tutor/services/circuit-breaker.ts:129-133 | what is left of the timeout while open, otherwise nothing |
| `CircuitBreaker.CircuitBreaker.AssertClosed` | apps/backend/src/plugins/tutor/services/circuit-breaker.ts:148-165 | which calls are admitted, with which wait the others are refused, and the new state |
| `CircuitBreaker.CircuitBreaker.RecordSuccess` | apps/backend/src/plugins/tutor/services/circuit-breaker.ts:167-173 | the whole new state after a success in any state |
| `CircuitBreaker.CircuitBreaker.RecordFailure` | apps/backend/src/plugins/tutor/services/circuit-breaker.ts:175-190 | the whole new state after a failure in any state, from which FailureStartsWait derives when calls are refused |
| `CircuitBreaker.CircuitBreaker.RetryAfterSeconds` | apps/backend/src/plugins/tutor/services/circuit-breaker.ts:192-195 | the wait in whole seconds, rounded up, or none when not open |
| `CircuitBreaker.StreamWrapper.RecordOnce` | apps/backend/src/plugins/tutor/services/circuit-breaker.ts:48-53 | only the first outcome of a stream reaches the breaker |
| `CircuitBreaker.StepIsSound` | apps/backend/src/plugins/tutor/services/circuit-breaker.ts:101-197 | each call, observation and late outcome keeps the invariant, whatever the options |
| `CircuitBreaker.EveryRunIsSound` | apps/backend/src/plugins/tutor/services/circuit-breaker.ts:38-197 | in every run: after k failed probes since the last close the timeout is min(base * 2^k, max), closed means the base timeout, a half-open episode admits at most its quota, each call counts at most one outcome; and closed means fewer consecutive failures than the threshold in every run if and only if the threshold is positive |
| `CircuitBreaker.OpensExactlyAtThreshold` | apps/backend/src/plugins/tutor/services/circuit-breaker.ts:148-190 | a closed breaker opens neither early nor late: it stays closed just as long as no streak of failures reaches the threshold |
| `CircuitBreaker.FailureStartsWait` | apps/backend/src/plugins/tutor/services/circuit-breaker.ts:112-190 | a failed probe, or a failure with the streak at the threshold, late ones while open included, starts the wait at its own moment: a later call is refused with what is left of the base timeout, or of the backed-off one, and then admitted if and only if probes are allowed; any other failure changes no verdict |
| `CircuitBreaker.NothingAdmittedAfterFailure` | apps/backend/src/plugins/tutor/services/circuit-breaker.ts:112-190 | from such a failure until its wait is over no call is admitted, whatever comes in |
| `CircuitBreaker.SuccessVerdict` | apps/backend/src/plugins/tutor/services/circuit-breaker.ts:118-173 | a success admits every call from then on if the breaker was half open, and changes no verdict otherwise |
| `CircuitBreaker.WaitUntilDue` | apps/backend/src/plugins/tutor/services/circuit-breaker.ts:124-133 | the wait an open breaker reports is the time until it is due, never negative; in other states it is nothing |
| `CircuitBreaker.NothingAdmittedWhileOpen` | apps/backend/src/plugins/tutor/services/circuit-breaker.ts:124-165 | from an opening until its timeout has passed no call is admitted, whatever outcomes come in |
| `CircuitBreaker.RetryAfterIsExact` | apps/backend/src/plugins/tutor/services/circuit-breaker.ts:129-165 | if no failure is recorded meanwhile, a call before the reported wait is over is refused with what is left of it, and from then on one is admitted if and only if probes are allowed at all |
| `CircuitBreaker.OnlyOutcomesLeaveHalfOpen` | apps/backend/src/plugins/tutor/services/circuit-breaker.ts:136-165 | time and calls alone never leave the half-open state nor renew its quota; beyond it calls are refused with no wait |
| `CircuitBreaker.OutcomeLeavesHalfOpen` | apps/backend/src/plugins/tutor/services/circuit-breaker.ts:167-190 | a recorded outcome always does: closed and reset, or open with the doubled timeout |
| `RateLimiter.RateLimiter.CheckPipeline` | apps/backend/src/shared/rate-limiter.ts:35-47 | the first pipeline leaves the live entries of the key and counts them |
| `RateLimiter.RateLimiter.AddPipeline` | apps/backend/src/shared/rate-limiter.ts:57-61 | the second stores the request and renews the key's expiry, even if the key expired in between |
| `RateLimiter.RateLimiter.Check` | apps/backend/src/shared/rate-limiter.ts:31-68 | the verdict, with the remaining count of RemainingIsRoom or the wait of WaitOfDenial, and the key's new set; other keys are untouched |
| `RateLimiter.ExpiryDropsNothing` | apps/backend/src/shared/rate-limiter.ts:57-61 | the expiry of a key drops no entry that is still in the window |
| `RateLimiter.EveryWindowIsBounded` | apps/backend/src/shared/rate-limiter.ts:31-68 | with checks that do not overlap and a clock that does not go back, every window (t - W, t] admits at most maxRequests |
| `RateLimiter.DeniedIffWindowFull` | apps/backend/src/shared/rate-limiter.ts:46-55 | a check is denied if and only if its own window is full, so nobody is refused early |
| `RateLimiter.WaitOfDenial` | apps/backend/src/shared/rate-limiter.ts:49-55 | for any set: a lone check before the wait is over is denied with what is left of it, and at its end is admitted if and only if fewer than maxRequests entries are newer than the oldest |
| `RateLimiter.RetryAfterIsExact` | apps/backend/src/shared/rate-limiter.ts:49-67 | in a run of non-overlapping checks a lone later check is admitted if and only if the wait is over and maxRequests is positive |
| `RateLimiter.RemainingIsRoom` | apps/backend/src/shared/rate-limiter.ts:67 | the remaining count is the room the window has beside this request, and the room left with it in, unless the window has no length; with a limit of 0 the wait is a whole window |
| `RateLimiter.RemainingAreAdmitted` | apps/backend/src/shared/rate-limiter.ts:67 | after an allowed check with r remaining, exactly the next r checks at that moment are admitted, unless the window has no length |
| `RateLimiter.KeyIsGoneInTime` | apps/backend/src/shared/rate-limiter.ts:57-61 | a key is gone within a second of its last request leaving the window |
| `RateLimiterRaces.StepFits` | apps/backend/src/shared/rate-limiter.ts:31-68 | each single command of a check keeps stored plus granted entries within maxRequests + c - 1 |
| `RateLimiterRaces.RunFits` | apps/backend/src/shared/rate-limiter.ts:31-68 | so does every interleaving of at most c checks |
| `RateLimiterRaces.LoneCheck` | apps/backend/src/shared/rate-limiter.ts:31-68 | a check that is not interleaved does what the sequential limiter says |
| `RateLimiterRaces.ConcurrentBoundIsExact` | apps/backend/src/shared/rate-limiter.ts:31-68 | with at most c checks in flight the set never exceeds maxRequests + c - 1 entries, and some interleaving fills it that far, whatever the window |
| `ShellQuote.LexQuoted` | infra/fly-execution/server/executor.go:336-338 | inside the opening quote the shell reads exactly the quoted string and goes on in the same word, if and only if it has no NUL |
| `ShellQuote.LexArgs` | infra/fly-execution/server/executor.go:266-270 | the quoted arguments are read as one word each, empty ones included |
| `ShellQuote.LexUlimit` | infra/fly-execution/server/executor.go:340-348 | the process-limit prefix is read as a command of its own before `&&` |
| `ShellQuote.QuotingRoundTrip` | infra/fly-execution/server/executor.go:265-270 | for every list of arguments the shell reads the program followed by exactly those arguments, or, with a NUL in one, a text that cannot be passed on |
| `ShellQuote.BuildCommand` | infra/fly-execution/server/executor.go:265-270 | the text the argument loop builds is read as exactly that list if and only if all arguments are NUL-free |
| `TruncateOutput.ValidIffText` | infra/fly-execution/server/executor.go:328 | a byte string matches the UTF-8 grammar if and only if it encodes some sequence of Unicode scalar values |
| `TruncateOutput.ValidPrefixIsLongest` | infra/fly-execution/server/executor.go:327-330 | reading whole characters from the front finds the longest valid prefix |
| `TruncateOutput.CutLosesAtMostThree` | infra/fly-execution/server/executor.go:327-330 | cutting at any limit loses at most three bytes unless the input itself is malformed where the valid part ends |
| `TruncateOutput.TruncateOutput` | infra/fly-execution/server/executor.go:324-334 | the shortening loop ends with what Kept describes, followed by the notice; shorter outputs are unchanged |
| `TruncateOutput.KeepsLongestValidPrefix` | infra/fly-execution/server/executor.go:324-334 | what is kept is the longest valid prefix of the first MAX_OUTPUT_BYTES bytes and the result is valid UTF-8 for every over-long input; at most three of those bytes are lost if and only if the input is well-formed to within three bytes of the limit, as a valid input is |
| `TruncateOutput.MalformedStartLosesAll` | infra/fly-execution/server/executor.go:327-331 | an over-long output loses everything if and only if it does not begin with a character |
| `TruncateOutput.StrayByteLosesAll` | infra/fly-execution/server/executor.go:327-331 | a continuation byte in front of any long output is such an input |

## Left out

- Storage: I/O errors that are returned while the process goes on, directory fsync, file
  permissions and the mutex; each store method is one operation except at crash points.
- The simple store across a crash: its file is rewritten in place, and `LoadPrefix` says what a
  cut file loads to; its histories are not otherwise modelled.
- JSON text is an abstract codec: non-empty, without a raw newline, decoding to the event it came
  from. An event without a type and one that does not parse are both `Invalid`.
- Text is characters: incremental UTF-8 decoding of network chunks is not modelled. Trimming knows
  the ASCII white space; the other characters it removes start no field, so nothing changes.
- Last-Event-ID is read by `Number()`; the client only ever sends decimal ids, and only those and
  unreadable headers are modelled.
- Ownership checks, response headers, heartbeat and duration timers (the cap is a `Cut` that may
  come at any time), backpressure, and the log's expiry, which is assumed to outlast the run.
- StreamNoLoss.NothingLostIff: asks that ids never go down and that an id is repeated only by the
  same event, as in every submission's log; and that the numbered events are published and logged
  in one order, as one worker at a time does it (`StreamProtocol.PublisherKeepsOneOrder`).
- LiveSessions.FollowingAppliesAll: asks the same of the log, and that no live connection lost an event.
- Reconnect.ReconnectingAppliesEachIdOnce: asks that the first terminal event is numbered above
  everything before it, as that of every submission's log is; `Reconnect.ReconnectingAppliesDistinct`
  covers any log, and `Reconnect.ClosingAppliesTerminalIff` says what the condition buys.
- The client's backoff delays and status texts, and how the page words a line; benchmark
  and criteria results, shown elsewhere, and the streaming flags.
- The generator parser's JSON error: `ParseSSEStream` returns the texts it hands to the JSON parser.
- Worker: criteria evaluation, benchmark arithmetic, file assembly and database text. Their
  outcomes are a job's fields; message texts and event bodies other than program output are empty.
- Database and Redis failures while an attempt runs, and the queue's choice of when to retry.
- The breaker's admitted calls are numbered; what the wrapped service returns is not modelled.
- Limiter: the random part of set members (entries with equal scores are kept apart as a list),
  Redis errors, and a Redis clock that differs from the caller's. In the sequential model the
  commands of a check run at the moment it read the clock.
- Shell: expansions, patterns, redirections and other operators are outside the reading; a text
  that uses them unquoted is read as nothing. Arguments are characters, standing for bytes.
- Process spawning, resource limits, HTTP handlers and temporary directories of the executor.
- The React components, stores, prompts, content loading, accounts and pagination.
