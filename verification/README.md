# CacheForge: a verified model of its core

This project models the storage, persistence and connection core of CacheForge, a
multithreaded in-memory cache server, in Dafny 4.11, and proves what the program is for:

- **the store**: sixteen shards, each a hash map and a recency list joined by iterators,
  with least-recently-used eviction, lazy expiry and a bounded background sweep;
- **the log**: printing commands, tokenizing and parsing them back, the writer thread, the
  file, and replay into a fresh store;
- **the connections**: framing of the byte stream, one task in flight per connection, the
  worker pool.

`dafny verify dfyconfig.toml` checks everything.

## How it is built

| file | holds |
|---|---|
| `Basics.dfy`, `Lines.dfy` | sequence and line vocabulary |
| `Shard.dfy`, `Store.dfy`, `Mask.dfy` | a shard and the store as values, their operations, validity, conservation, independence of shards |
| `Recency.dfy`, `Inclusion.dfy` | what the recency list means; a small cache against a large one |
| `TimedMap.dfy`, `Freshness.dfy` | the store against a flat timed map; what one key can observe |
| `Storage.dfy` | the store as the program keeps it, updated in place |
| `Tokens.dfy`, `Decimal.dfy`, `Parser.dfy`, `Grammar.dfy` | printing and parsing, and which lines are which commands |
| `Writer.dfy` | the log writer, as interleaved steps and as a class |
| `Commands.dfy`, `Session.dfy`, `Protocol.dfy`, `Conversation.dfy`, `Dispatcher.dfy` | dispatch and replay as functions, sessions of commands, their responses and counters, what a client is told about its lines, and the program's methods |
| `Replaying.dfy` | what replay makes of a log, and exactly when it evicts nothing and finds nothing expired |
| `Recovery.dfy`, `KeyRecovery.dfy` | recovery of serial sessions: list by list, and of any session key by key |
| `Interleaving.dfy` | recovery when workers interleave, key by key and in both directions |
| `FileRecovery.dfy`, `InterleavedFile.dfy`, `Generations.dfy`, `Restart.dfy` | the same with the writer thread, the file and its text: serial, interleaved, over any number of restarts, and as the program runs it |
| `Limits.dfy` | where recovery stops |
| `Framing.dfy`, `Server.dfy`, `Pool.dfy` | connections, event loop and workers |

The clock is an input: every operation carries its readings in nanoseconds, two where the
source reads twice (`expire`, `ttl`). The hash is an arbitrary function. A sweep carries the
set of keys it got to visit. Runs are sequences of operations, and concurrent parts are state
machines whose runs are arbitrary sequences of atomic actions; an action that is not possible
changes nothing. The classes (`Storage.ShardedStorage`, `LogWriter.AofWriter`,
`Dispatcher.CommandDispatcher`, `Framing.Connection`, `Pool.ThreadPool`) are proved against
these functions and machines.

A store *drops* a key when it finds it expired or evicts it; the key stays dropped until it is
set again. A log *fits* a store when after every prefix each shard's live keys number at most
its capacity. A replay is *timely* when every DEL and EXPIRE reads the clock before the
deadline of its key.

## What is false of the code

Each has a lemma that shows the failure, and a theorem that states when the property does
hold.

- Printing and parsing are inverse only for strings that are non-empty and either contain a
  quote-triggering character or no whitespace: `Parser.ParseUndoesPrint` and
  `Tokens.SplitUndoesLine` are equivalences. `Limits.WhitespaceBreaksReplay`: a key with a
  vertical tab, form feed or carriage return in it replays as another key.
- `EXPIRE key 0` succeeds and is logged, but replay rejects the line:
  `Limits.ExpireZeroBreaksReplay`; `Replaying.DecodeUndoesPrint` is the equivalence.
- `TTL` answers with 32 bits, so a deadline more than 2^31 - 1 seconds ahead is reported wrongly:
  `Conversation.ExpireThenTtl` is an equivalence.
- Expiry is not logged, so replay brings an expired key back: `Limits.ExpiryBreaksReplay`. Of
  any session exactly the keys are recovered that were not found expired or evicted since they
  were last set: `KeyRecovery.RecoverUndropped`; with no condition on the replay either, those
  that both stores dropped or neither did: `KeyRecovery.RecoverKeys`.
- A `get` that hits reorders the list and is not logged, so replay can evict another key than
  the run did: `Limits.ReadBreaksRecovery`, at every capacity of two or more a shard. One more
  `get` is harmless if and only if it misses or its key is already first:
  `ExactRecovery.GetAfterRecovery`; and all are while nothing is evicted:
  `KeyRecovery.RecoverWithHits`.
- Store update and log enqueue are separate steps, so two racing sets of one key can be logged
  in the wrong order: `Interleaving.OverlapBreaksRecovery`. `Interleaving.RecoverExactly` says
  which keys are recovered from any interleaving.
- Even without such a race the log order can make replay evict where the run did not:
  `Limits.LogOrderCanEvict`. `Replaying.ReplayClean` says exactly when replay evicts nothing.
- Only the first command of a read is processed: `Server.TwoLinesAtOnce` and
  `Server.LostForever`. The comment at src/server/server.cpp:243-244 promises the rest for the
  next read; the buffer no longer holds them, and the model follows the code.
- After a failed send the next read is taken in and dropped before the connection is closed,
  even if the client waited for every command: `Server.WaitingClientLoses` and
  `Server.FailedSendDrops`. `Server.DispatchedIsFramed` is the equivalence that says when all
  commands are dispatched, and `Server.PatientClient` that of a client that waits.

## Model

| member | source | states |
|---|---|---|
| Shards.StepAccounted | src/storage/sharded_storage.cpp:15-155 | every operation keeps list and map in agreement, duplicate-free and within capacity, evicts at most one key, and accounts for every key that came or went |
| Shards.StepRearranges | src/storage/sharded_storage.cpp:15-102 | every operation changes the list only by taking out the lost keys and putting the touched one in front; the map's keys follow |
| Shards.StepElsewhere | src/storage/sharded_storage.cpp:51-155 | an operation changes entries only at its own key |
| Stores.RunValid | include/storage/sharded_storage.h:53-66 | in every run each list is duplicate-free, holds exactly the map's keys, every key is in its hash shard and no shard exceeds its capacity |
| Stores.RoomPerShard | src/storage/sharded_storage.cpp:7-9 | a shard has room for n keys if and only if n is at most one or sixteen times n is at most max_keys |
| Stores.CountersMean | src/storage/sharded_storage.cpp:15-29 | the evicted counter counts the sets of an absent key in a full shard, the expired counter the entries found past their deadline |
| Stores.KeysConserved | src/storage/sharded_storage.cpp:7-49 | after any run insertions equal current size plus evicted, expired and deleted keys, and the size is at most max(16, max_keys) |
| Stores.ShardsProject | include/storage/sharded_storage.h:60-66 | states and answers of the store are those of each shard running its own operations alone |
| Stores.ShardsCommute | src/storage/sharded_storage.cpp:51-155 | operations on different shards commute, answers included |
| Mask.MaskedIndex | include/storage/sharded_storage.h:60-62 | masking the hash with 15 is the remainder modulo 16, for every hash value |
| Recency.ListSortedByUse | src/storage/sharded_storage.cpp:39-49 | in every run each list is sorted by the time its keys were last set or hit |
| Recency.EvictsLeastRecentlyUsed | src/storage/sharded_storage.cpp:22-29 | an eviction happens only in a full shard and takes the key set or hit longest ago |
| Recency.ReuseDistance | src/storage/sharded_storage.cpp:22-84 | in every run, sweeps included, a key neither deleted nor found expired is resident while it and the other keys of its shard set or hit since number one, or at most a sixteenth of max_keys |
| Recency.ReuseDistanceExact | src/storage/sharded_storage.cpp:22-49 | when only evictions remove keys that bound is exact: resident if and only if |
| Inclusion.LruInclusion | src/storage/sharded_storage.cpp:7-155 | for max_keys m <= M and the same operations, every small list is a subsequence of the large one with equal entries and a size gap of at most the capacity gap; every small answer is a miss or the large store's answer |
| TimedMap.FlatMapRefinement | src/storage/sharded_storage.cpp:51-155 | in every run without evictions every answer is that of one flat map from key to value and optional deadline, sweeps anywhere |
| TimedMap.FewKeysNoEviction | src/storage/sharded_storage.cpp:7-49 | a run that sets in each of the sixteen shards one key, or at most a sixteenth of max_keys different keys, evicts nothing |
| Freshness.NeverStale | src/storage/sharded_storage.cpp:68-84 | in every run a value returned by get is the one last set for its key, not deleted since, and the key's deadline lies after the reading used |
| Freshness.TtlExact | src/storage/sharded_storage.cpp:113-155 | after expire(k, s) and no later set or expire of k a ttl is -2 if and only if k is gone or the deadline has passed, and if nothing is deleted or evicted if and only if the deadline has passed; otherwise it is at most s and r seconds <= deadline - now < r + 1 seconds, and 0 when the deadline passes between the two readings |
| Freshness.TtlFalls | src/storage/sharded_storage.cpp:134-155 | later ttls of an untouched deadline are never larger |
| Storage.ShardCell.Erase | src/storage/sharded_storage.cpp:15-18 | the entry goes and, through its iterator, the list cell; structures stay joined |
| Storage.ShardCell.Update | src/storage/sharded_storage.cpp:38-42 | new value and deadline, cell spliced to the front |
| Storage.ShardCell.MoveToFront | src/storage/sharded_storage.cpp:81-83 | cell spliced to the front, entries unchanged |
| Storage.ShardCell.SetDeadline | src/storage/sharded_storage.cpp:130 | only the deadline of that key changes, the list not at all |
| Storage.ShardCell.Insert | src/storage/sharded_storage.cpp:46-47 | a new cell in front whose iterator the new entry holds |
| Storage.ShardCell.PopBack | src/storage/sharded_storage.cpp:24-26 | the last key leaves both structures |
| Storage.JoinedKeys | include/storage/sharded_storage.h:53-57 | joined structures hold the same keys, none twice, and are equally long |
| Storage.ShardedStorage.constructor | src/storage/sharded_storage.cpp:7-9 | a consistent empty store with room in a shard for n keys exactly when n is at most one or 16 n at most max_keys |
| Storage.ShardedStorage.EvictIfNeeded | src/storage/sharded_storage.cpp:22-29 | the loop terminates, removes exactly the last key of a full shard and nothing otherwise, and counts it |
| Storage.ShardedStorage.InsertOrUpdate | src/storage/sharded_storage.cpp:31-49 | refines the shard's put, eviction count included |
| Storage.ShardedStorage.RemoveExpiredEntry | src/storage/sharded_storage.cpp:15-20 | the entry leaves both structures and the expired count rises by one |
| Storage.ShardedStorage.Set | src/storage/sharded_storage.cpp:51-55 | refines the store operation and keeps all sixteen shards consistent |
| Storage.ShardedStorage.SetWithTtl | src/storage/sharded_storage.cpp:57-66 | the same for a set with a deadline; negative seconds mean none |
| Storage.ShardedStorage.Get | src/storage/sharded_storage.cpp:68-84 | the same for get, with its answer |
| Storage.ShardedStorage.Del | src/storage/sharded_storage.cpp:86-102 | the same for del, with its answer |
| Storage.ShardedStorage.Expire | src/storage/sharded_storage.cpp:113-132 | the same for expire, with its answer |
| Storage.ShardedStorage.Ttl | src/storage/sharded_storage.cpp:134-155 | the same for ttl, with its answer |
| Storage.ShardedStorage.Count | src/storage/sharded_storage.cpp:104-111 | the sum of the shard sizes |
| Storage.ShardedStorage.SweepShard | src/storage/sharded_storage.cpp:182-198 | for every iteration order the sweep is the store's sweep of the first 100 keys; with at most 100 entries none past its deadline remains |
| Storage.SweepRemovesExpired | src/storage/sharded_storage.cpp:182-198 | a sweep removes exactly the visited expired entries, keeps survivors' entries and relative order, and counts the removed |
| Tokens.SplitUndoesLine | src/protocol/parser.cpp:15-51 | tokenizing the space-joined quoted forms of a list gives it back if and only if every string is loggable |
| Decimal.StollUndoesToText | src/storage/aof_writer.cpp:76-79 | reading a printed number gives it back exactly when it fits 64 bits |
| Parser.ParseUndoesPrint | src/storage/aof_writer.cpp:65-101 | parsing a logged line gives back the logged command if and only if its strings are loggable |
| Grammar.ParseForm | src/protocol/parser.cpp:64-114 | words separated and surrounded by any blanks, the first spelling one of the seven command names in any letters: the line parses as that command with its arguments, further words ignored, and none if there are too few |
| Grammar.ParseOther | src/protocol/parser.cpp:64-76 | a line whose first word spells no command name, or without words, parses as no command |
| Grammar.ParseQuoted | src/protocol/parser.cpp:64-114 | the same for arguments of any characters, quoted where they need it |
| Grammar.ParseTrimmed | src/protocol/parser.cpp:54-62 | blanks around any line change nothing |
| Grammar.QuotedToken | src/protocol/parser.cpp:28-37 | inside quotes a backslash stands for the next character, whatever it is, and a quote ends the token |
| Grammar.QuotedEnds | src/protocol/parser.cpp:28-47 | an unclosed quote runs to the end of the line, where a lone backslash stands for itself, and an empty token is none |
| Grammar.QuoteMeans | src/storage/aof_writer.cpp:90-101 | the log writer leaves a string as it is if and only if it holds no space, tab, quote or backslash |
| Grammar.LogFormat | src/storage/aof_writer.cpp:65-79 | the text of log lines |
| Grammar.StollReads | src/protocol/dispatcher.cpp:60-65 | blanks, a sign and digits read as the number in base ten, whatever follows, if it fits 64 bits, and otherwise fail |
| Grammar.StollFails | src/protocol/dispatcher.cpp:60-65 | without a digit after blanks and sign reading fails |
| Grammar.ToTextReads | src/storage/aof_writer.cpp:76-79 | a printed number is its digits in base ten without leading zeros, after a minus if it is negative |
| Parser.PlainArgsLoggable | src/protocol/parser.cpp:64-114 | a line whose only whitespace is spaces and tabs parses into loggable arguments only |
| Parser.QuoteIfNeeded | src/storage/aof_writer.cpp:90-101 | the loop computes the quoted form that tokenizing undoes |
| Parser.ReadQuoted | src/protocol/parser.cpp:28-37 | the loop reads a quoted token and stops after its closing quote |
| Parser.ReadBare | src/protocol/parser.cpp:38-43 | the loop reads up to the next whitespace |
| Parser.Tokenize | src/protocol/parser.cpp:15-51 | the nested loops compute the split |
| Parser.TrimCommand | src/protocol/parser.cpp:54-62 | the two loops compute the trimmed view |
| Parser.ParseCommand | src/protocol/parser.cpp:64-114 | the command of a line, arguments kept only when enough tokens are there |
| Lines.GetLinesUndoesUnlines | src/storage/aof_replay.cpp:19-21 | reading back written lines gives them if and only if none holds a newline |
| Lines.GetLinesOfText | src/storage/aof_replay.cpp:19-21 | text after the last newline is read as a line of its own |
| LogWriter.LogOrder | src/storage/aof_writer.cpp:81-150 | for every interleaving the lines counted as written are a prefix of the push order, also after a stream failure; on a good stream file, batch and queue together are the push order |
| LogWriter.DrainedOnReturn | src/storage/aof_writer.cpp:103-120 | when the loop returns on a good stream everything pushed until then is in the file, and nothing changes that |
| LogWriter.HealthyLosesNothing | src/storage/aof_writer.cpp:103-150 | if the stream accepts every write and flush, it stays good and file, batch and queue together are the push order |
| LogWriter.ShutTakesNothing | src/storage/aof_writer.cpp:65-88 | a writer that is stopped, or disabled and not enabled again, takes no line from then on |
| LogWriter.AofWriter.Enqueue | src/storage/aof_writer.cpp:81-88 | the line joins the queue unless the writer is stopped |
| LogWriter.AofWriter.LogSet | src/storage/aof_writer.cpp:65-69 | pushes the printed SET if enabled and not stopped, and nothing otherwise |
| LogWriter.AofWriter.LogDel | src/storage/aof_writer.cpp:71-74 | pushes the printed DEL if enabled and not stopped, and nothing otherwise |
| LogWriter.AofWriter.LogExpire | src/storage/aof_writer.cpp:76-79 | pushes the printed EXPIRE if enabled and not stopped, and nothing otherwise |
| LogWriter.AofWriter.TakeBatch | src/storage/aof_writer.cpp:115-119 | the batch is the whole queue in order, and the queue is empty |
| LogWriter.AofWriter.WriteBatch | src/storage/aof_writer.cpp:128-135 | the lines up to the first the stream does not accept are added to the file, and the stream stays good if and only if it was and accepted all; a sequence of the machine's write actions |
| LogWriter.AofWriter.Turn | src/storage/aof_writer.cpp:104-149 | a turn writes the whole queue up to the first failure and flushes, or returns, exactly on a stop request with an empty queue; a sequence of the machine's actions |
| LogWriter.AofWriter.Stop | src/storage/aof_writer.cpp:15-46 | terminates with the loop returned and what was queued written up to the first failure, so with every pushed line in the file on a good stream; a second stop changes nothing |
| Sessions.SessionIsOps | src/protocol/dispatcher.cpp:11-102 | a session of commands and sweeps is a run of store operations, so all results on runs hold of sessions |
| Protocol.ResponsesAreFlat | src/protocol/dispatcher.cpp:14-78 | in every session without evictions every response but that of STATS is the one a flat timed map gives |
| Protocol.CountersCount | src/protocol/dispatcher.cpp:12-40 | the counters count requests, gets, writes and hits, and hits plus misses are the gets |
| Protocol.StatsReport | src/protocol/dispatcher.cpp:80-96 | STATS reports the requests, gets, writes, hits and misses of the session, the entries found expired, the evictions, and the keys that insertions leave after these and deletions |
| Protocol.Int32Means | src/protocol/response.cpp:26-34 | an integer response is its number if and only if that fits 32 bits, and congruent to it otherwise |
| Conversation.SetThenAsk | src/protocol/dispatcher.cpp:18-78 | after any session the line SET k v is answered OK, and then GET k with the value, TTL k with -1 and DEL k with 1, the names in any letters |
| Conversation.DelThenAsk | src/protocol/dispatcher.cpp:29-78 | once DEL k has been heard GET k is answered nil, TTL k with -2 and DEL k with 0 |
| Conversation.ExpireThenTtl | src/protocol/dispatcher.cpp:56-78 | EXPIRE k n on a live key is answered 1, and TTL k at the same moment with n if and only if n fits 32 bits |
| Conversation.ReplayedLines | src/storage/aof_replay.cpp:28-68 | which command lines replay performs, fails and skips |
| Conversation.ReplayedDeadlines | src/storage/aof_replay.cpp:45-57 | an EXPIRE line is performed if its number reads as positive and failed otherwise; an empty line is skipped |
| Conversation.SkippedLines | src/storage/aof_replay.cpp:61-64 | a line that names no command is skipped |
| Dispatcher.CommandDispatcher.Dispatch | src/protocol/dispatcher.cpp:11-102 | store, counters, response and log after a command are those of the dispatch function |
| Dispatcher.CommandDispatcher.DispatchSet | src/protocol/dispatcher.cpp:18-27 | the same for SET, logged after the store is updated |
| Dispatcher.CommandDispatcher.DispatchGet | src/protocol/dispatcher.cpp:29-41 | the same for GET, hits and misses included |
| Dispatcher.CommandDispatcher.DispatchDel | src/protocol/dispatcher.cpp:43-54 | the same for DEL, logged only when a key was deleted |
| Dispatcher.CommandDispatcher.DispatchExpire | src/protocol/dispatcher.cpp:56-71 | the same for EXPIRE, logged only on success |
| Dispatcher.CommandDispatcher.DispatchTtl | src/protocol/dispatcher.cpp:73-78 | the same for TTL, narrowed to 32 bits |
| Dispatcher.ReplayInto | src/storage/aof_replay.cpp:12-75 | the line loop's store and statistics are those of the replay function |
| Dispatcher.DecodeLine | src/storage/aof_replay.cpp:23-68 | which lines are performed, skipped or counted as errors |
| Replaying.DecodeUndoesPrint | src/storage/aof_replay.cpp:28-68 | replay performs a logged record as logged if and only if its strings are loggable and an EXPIRE has 1 to 2^63-1 seconds |
| Replaying.ReplayIsRun | src/storage/aof_replay.cpp:19-75 | replay of a log of such records is the run of their operations at replay's clock readings, every line performed |
| Replaying.StatsCount | src/storage/aof_replay.cpp:12-75 | the statistics count the lines performed, skipped and failed, and every line is one of these |
| Replaying.CleanExactly | src/storage/sharded_storage.cpp:15-49 | a run of records evicts nothing and finds nothing expired if and only if after every prefix each shard's live keys number at most its capacity and every DEL and EXPIRE comes before the deadline of its key; it then holds exactly the live keys |
| Replaying.ReplayClean | src/storage/aof_replay.cpp:12-75 | replay of any replayable log performs every line, and evicts nothing and finds nothing expired if and only if the log fits and the replay is timely |
| Replaying.RunKept | src/storage/sharded_storage.cpp:15-155 | in any run of records, evictions and expiries included, a key is as the records left it, unless one of them evicted it or found it expired after its last SET or DEL |
| Replaying.PromptIsTimely | src/storage/aof_replay.cpp:45-53 | a replay whose readings lie within one second is never late, since logged deadlines are at least a second |
| Replaying.FewKeysFit | src/storage/sharded_storage.cpp:22-29 | a log that sets no more different keys of a shard than it has room for fits after every prefix |
| ExactRecovery.Recover | src/protocol/dispatcher.cpp:11-71 | a serial session in which nothing expired and no get moved a key: its log replays without error; replay finds nothing expired if and only if it is timely, and then rebuilds every shard: list, keys, values, evictions, which keys have a deadline, each counted from the replay |
| ExactRecovery.RecoverPromptly | src/storage/aof_replay.cpp:12-75 | the same for a session without hits and a replay of less than a second, with no condition on replay's results |
| ExactRecovery.GetAfterRecovery | src/storage/sharded_storage.cpp:68-84 | one more get of an unexpired key leaves the store rebuilt if and only if the key is absent or already first in its list |
| KeyRecovery.RecoverKeys | src/protocol/dispatcher.cpp:11-71 | any serial session, with hits, evictions, expiries and sweeps, and any replay of its log, into a store of any size at any time: the two stores agree on a key, deadlines counted anew, if and only if both found it expired or evicted it since its last write or neither did |
| KeyRecovery.RecoverUndropped | src/protocol/dispatcher.cpp:11-71 | if the log fits and replay is timely, exactly the keys are recovered that the session did not find expired or evict since they were set; the others are gone from the store and back after replay |
| KeyRecovery.RecoverWithHits | src/protocol/dispatcher.cpp:29-41 | a session with any hits that evicted nothing and found nothing expired: replay into a store at least as large evicts nothing, finds nothing expired if and only if it is timely, and then agrees on every key |
| Generations.RecoverAgain | src/server/server.cpp:45-62 | over any number of restarts at any moments, each replaying what is in the file and appending to it, whatever was read, evicted or found expired: replay of the file's text agrees with the present store on a key whose records are all in the file if and only if both dropped it or neither did |
| Generations.RebuildAgain | src/server/server.cpp:45-62 | if moreover nothing expired, no get moved a key and restarts were timely, another replay finds nothing expired if and only if it is timely, and then rebuilds every shard of the store that the records in the file make |
| Generations.FileGrows | src/storage/aof_writer.cpp:19-24 | over requests, writer steps, stream failures and restarts a line once in the file stays where it is |
| FileRecovery.AcceptableRecord | src/storage/aof_writer.cpp:65-101 | a request line whose only whitespace is spaces and tabs, other than EXPIRE key 0, logs one line that reads back as it was logged |
| FileRecovery.StepsFollow | src/storage/aof_writer.cpp:81-150 | however requests, the writer thread, its stop and its stream failures interleave, the lines pushed are those of a first part of the session's log; of all of it if no request follows the stop |
| FileRecovery.RecoverFromFile | src/storage/aof_replay.cpp:12-75 | end to end from request lines through parser, dispatcher, any interleaving of the writer thread and the file's text: at any moment replay recovers the store as it was after some first requests, key by key exactly but for dropped keys and list by list if nothing expired and no get moved a key; after all requests if none follows a stop and the writer has written out its queue |
| Restarting.ServeLines | src/server/server.cpp:105-111 | the dispatcher's loop, the writer's turns and its stop lead to the file that the joint steps lead to, with exactly as many lines of the log as the stream accepts |
| Restarting.HealthyTape | src/storage/aof_writer.cpp:103-150 | on a stream that accepts everything that is the whole log |
| Restarting.LoadFile | src/server/server.cpp:45-58 | a new store filled from the file's text is what the replay function gives |
| Restarting.Restart | src/server/server.cpp:36-111 | serving lines, stopping the writer and starting again on the file recovers the store after the first n requests in the same sense, those whose records the stream accepted; after all of them if the stream accepts every write and flush |
| Interleaving.EndingIsFinal | src/storage/aof_replay.cpp:28-60 | what records leave of a key is decided by its last SET or DEL and whether an EXPIRE follows it |
| Interleaving.RecoverExactly | src/protocol/dispatcher.cpp:22-70 | for any interleaving of workers, overlapping or unfinished, whatever it evicts or finds expired, any first part of the log and any replay of it: store and replayed store agree on a key's presence, value and having a deadline if and only if the last SET or DEL of the key and whether an EXPIRE follows are the same in the two orders, a key dropped by either store counting as gone there |
| Interleaving.RecoverFitting | src/protocol/dispatcher.cpp:22-70 | the same with nothing dropped by replay, if that part of the log fits and replay is timely |
| Interleaving.RecoverInterleaved | src/protocol/dispatcher.cpp:22-70 | on every key whose write windows do not overlap, are closed, and are in that part, they agree, deadlines counted anew, if and only if both dropped the key or neither did |
| Interleaving.RecoverFewKeys | src/protocol/dispatcher.cpp:22-70 | if no windows overlap or are open, no shard is set more keys than it has room for, and replay takes less than a second, exactly the keys that were not dropped are recovered |
| InterleavedFile.FileIsLog | src/storage/aof_writer.cpp:81-150 | with stop checks, pushes and the writer thread interleaved in any way the file's text reads back as a first part of the log, as all of it when the queue is written out |
| InterleavedFile.RecoverFromText | src/storage/aof_replay.cpp:12-75 | both equivalences for replay of the file's text at any moment, with no condition on run or replay |
| InterleavedFile.FittingText | src/storage/aof_replay.cpp:12-75 | replay of the text evicts nothing, finds nothing expired and so drops no key if what the file holds fits and the replay is timely |
| Interleaving.OverlapBreaksRecovery | src/protocol/dispatcher.cpp:22-26 | after any past, two racing sets of one key end differently in the two orders: the store holds the later value, the replayed store the earlier |
| Limits.ReadBreaksRecovery | src/storage/sharded_storage.cpp:81-83 | at every capacity of two or more a shard an unlogged get makes run and replay evict different keys |
| Limits.OneKeyNeverReorders | src/storage/sharded_storage.cpp:81-83 | with room for one key a shard no get ever moves a key |
| Limits.LogOrderCanEvict | src/protocol/dispatcher.cpp:48-54 | at every capacity of two or more a shard a log written out of store order makes replay evict a key the run kept, with no overlap and no eviction in the run |
| Limits.WhitespaceBreaksReplay | src/storage/aof_writer.cpp:90-93 | a key of two words joined by a vertical tab, form feed or carriage return is parsed from a quoted request, and its log line sets the first word to the second |
| Limits.ExpiryBreaksReplay | src/storage/sharded_storage.cpp:68-79 | after any session a key that a get finds expired is gone from the store and back after any replay that fits and is timely |
| Limits.ExpireZeroBreaksReplay | src/storage/aof_replay.cpp:45-52 | after any session EXPIRE key 0 on a live key makes it expire at once and logs a line that replay counts as an error and does not perform |
| Framing.ChunkingIrrelevant | src/server/connection.cpp:34-52 | however the stream is cut into reads, commands and leftover are those of the whole stream |
| Framing.CommandOfLine | src/server/connection.cpp:42-49 | a request becomes a command as it is, with or without a carriage return at its end, and an empty line none |
| Framing.RequestsArrive | src/server/connection.cpp:34-52 | however the bytes are cut into reads, requests sent with either line end come out as they are |
| Framing.LinesUnique | src/server/connection.cpp:36-50 | there is only one way to cut a stream into newline-free lines and a newline-free leftover |
| Framing.Connection.ReadAndParse | src/server/connection.cpp:15-53 | commands, buffer and error flag after a read, for every outcome of recv |
| Framing.Connection.ExtractCommands | src/server/connection.cpp:37-50 | the loop takes out every complete command and leaves the bytes after the last newline |
| Framing.Connection.TrySetInFlight | src/server/connection.cpp:109-113 | succeeds exactly when the flag was clear, and leaves it set |
| Server.OneTaskInFlight | src/server/server.cpp:199-250 | in every reachable state of loop and workers the flag is set exactly when one task of the connection exists, never two, and the synchronous fallback is unreachable |
| Server.DispatchedIsFramed | src/server/server.cpp:212-246 | with nothing in flight exactly the first command of every read was dispatched, in order; that is the whole stream read from the connection if and only if no read yielded more than one command and none was dropped after a failed send |
| Server.PatientClient | src/server/server.cpp:199-246 | of a client that sends a line only after the one before was dispatched everything is dispatched in order but what was dropped, so everything if and only if nothing was, and nothing is unless a send failed |
| Server.LostForever | src/server/server.cpp:212-246 | once a read has yielded two commands or dropped one, a command stays undispatched whatever happens after |
| Server.FailedSendDrops | src/server/server.cpp:212-217 | after any run, if the answer to a command cannot be sent, the commands of the next read are taken in and dropped |
| Server.WaitingClientLoses | src/server/connection.cpp:68-75 | a client that waits for its first line to be dispatched loses its second that way |
| Server.TwoLinesAtOnce | src/server/connection.cpp:34-52 | two requests that arrive together, with either line end, are one read of two commands, the second lost |
| Server.RequestDispatched | src/server/server.cpp:219-246 | a request that arrives alone is dispatched as it was sent, whichever line end it has |
| Server.ClosesAtEnd | src/server/server.cpp:212-217 | a hangup, a failed read, the end of the stream or an error flag closes the connection, and nothing else does |
| Server.ClosedForGood | src/server/server.cpp:199-205 | nothing is read from a closed connection whatever happens after |
| Server.HandleRead | src/server/server.cpp:199-250 | nothing while a task is in flight, otherwise one read whose first command becomes a task; objects and queue end as the machine's steps end |
| Pool.PoolExactlyOnce | src/server/thread_pool.cpp:31-68 | for any number of workers and any interleaving tasks start in submission order, and each started one is running on one worker or has finished once |
| Pool.WorkersStay | src/server/thread_pool.cpp:41-63 | while no stop is requested every worker is idle or running a task, and an idle one takes the oldest task there is |
| Pool.PoolDrains | src/server/thread_pool.cpp:44-54 | when the last worker leaves, every submitted task has run once, until another is submitted |
| Pool.ThreadPool.constructor | src/server/thread_pool.cpp:5-17 | an empty pool of the given number of workers, one for zero, the machine's start |
| Pool.ThreadPool.Submit | src/server/thread_pool.cpp:31-37 | the machine's submit: the task joins the end of the queue |
| Pool.ThreadPool.NextTask | src/server/thread_pool.cpp:41-63 | takes the oldest task exactly when there is one, leaves exactly when there is none and a stop was requested, and otherwise waits again; the machine's steps |

## Left out

- Sockets, epoll, accepting connections, command-line parsing and signal handling: input and output only. Connections are identities, so reuse of file descriptors is outside the model.
- The write path of a connection (src/server/connection.cpp:55-107): a direct send can overtake buffered bytes and workers do not arm the write event, so neither order nor delivery of responses is promised.
- Bytes of responses and of STATS (src/protocol/response.cpp): responses are values; uptime is not modelled.
- Torn final lines, flushing to disk and a log file that cannot be opened: the file is a sequence of whole lines, and a missing file is the empty text.
- Overflow of the clock: time is unbounded, so deadlines of more than about 292 years, which overflow the source's 64-bit nanoseconds, are not modelled.
- Storage.ShardedStorage.SweepShard: says nothing of expired entries left in a shard with more than a hundred, since every sweep restarts at the beginning of the map.
- Inclusion.LruInclusion: covers sweeps only when both stores visit the same keys, since with more than a hundred entries a shard's sweep depends on its map order.
- ExactRecovery.Recover: is exact about when replay finds nothing expired, and does not say which late replays rebuild the store all the same.
- Restarting.Restart: serves request lines without sweeps in between and lets the writer take whole turns; `FileRecovery.RecoverFromFile` covers sweeps and every interleaving of the writer's actions.
- Memory orders, condition variables, locks and the order in which objects are destroyed: every access is one atomic step.
- `SET key value EX seconds`, which the repository's README lists: the parser keeps only key and value (src/protocol/parser.cpp:82-87).
- The benchmark and the command-line client.
