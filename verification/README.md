# A verified model of SugarDB's stateful core

SugarDB is an in-memory store that speaks the Redis protocol. This project models,
in Dafny, the parts of it that hold state or algebra worth proving, and proves what
they do on every input, every run or every reachable state:

- **The append-only file** (`Resp`, `AppendLog`, `Database`, `Recovery`, `KeyHistories`,
  `Overwrites`, `BadRuns`). Commands are framed in RESP2, the log switches databases with
  SELECT frames, a rewrite snapshots the unexpired state and truncates the log, a restart
  loads and replays, a rewrite may die at either of its two stages. The effect of a command,
  which may read the clock, is a parameter. Main results: for commands that are blind to
  expiry and to the clock, whatever is executed, rewritten, restarted, crashed and lazily
  expired, a restore rebuilds the live state, up to expired keys; for SET, MSET, EXPIRE and
  EXPIREAT, PERSIST and DEL, which are not blind, it does exactly when the run endangers no
  key, and a crash loses nothing under a condition that is exact too.
- **Eviction and memory accounting** (`Heap`, `EntryHeaps`, `LFU`, `LRU`, `Keyspace`,
  `StoreWrites`, `Eviction`, `Servers`). The algorithms of Go's `container/heap` work in place on
  entries with back-pointers; each method equals a function on sequences, and the heap
  laws are proved of the functions. The server pops and deletes until memory is under
  its limit. Main results: the keys evicted from a frequency cache are a prefix of the
  heap's drain order and the loop stops at the first point under the limit; counts in the
  cache are the accesses since the key entered, and after every run the key popped next is
  one accessed least often; the memory counter is the live cost plus all discarded versions,
  less what was never counted; what the server's methods do to the store is what the same
  commands do in the recovery model.
- **Set algebra** (`ScoreAlgebra`, `SortedSets`, `Sets`). Weighted unions and
  intersections by divide and conquer equal a flat definition, in which every score is multiplied by its
  set's weight; the string-set union
  changes its inputs, which may be aliases; the intersection may stop early, and its
  outcomes are exactly what the recursion computes in some order of visits.
- **In-place loops and small parsers** (`ListRemove`, `Lexicographic`, `ZArguments`).

Where the source changes state the model is a class or a method over an array, specified
by a function; what is promised is then proved about the function.

Where the code falls short of what it is for, the model follows the code, gives an input
that shows it, and proves the exact condition under which the code is right:

- A SELECT frame has a fixed `$1`, so only databases 0 to 9 can be read back, and
  truncating the log before the first write makes it unreadable (`SelectFrameReadable`,
  `LogRoundTrip`, `EarlyCutLosesTheLog`).
- A SET keeps the expiry time of a key that is still in memory, but a restore has dropped
  an expired key; a read drops an expired key from memory, but not from the log; and a time
  to live starts anew when the log is replayed. `RunRecoversIff` says exactly after which
  runs a restore differs from memory. `BadRestarts` gives two runs of three steps: in one a
  hidden key comes back, in the other a logged SET is lost; `TimeToLiveIff` is the third
  kind. `RecoveryRefinesLiveState` therefore asks that commands be blind, and
  `SetSeesExpiredKeys` shows that SET is not.
- A rewrite that dies before it truncates the log leaves files from which a restart may
  build another state; `CrashRecoversIff` says exactly when. `BadCrashEmptied`: with the
  preamble emptied, a key is lost that an earlier rewrite took out of the log.
  `BadCrashWritten`: with the preamble written, an EXPIREAT of a key that was absent, logged
  before a SET, is replayed over the key, although a restart without the crash is right.
- Flushing zeroes the slots of the caches and of the expiry lists and keeps them
  (`LFU.CacheLFU.Flush`, `FlushLeavesStaleNames`, and `StaleNameExample` is a run that
  does); it gives no memory back.
- The recency cache pops the most recently accessed key first, although the policy's name
  promises the least recently used one: `LaterGoesFirst` is the input, and by
  `PopsLeastRecentIff` the popped key is a least recently accessed one exactly when all
  keys were last accessed at one time. A key has as many entries as it had accesses, so
  eviction may delete it again when it is gone, and take its cost off the count again:
  `PhantomEviction` is a loop that reports success while what is stored is over the limit,
  and `DeletesKeepCountIff` says when the count stays right.
- An early-stopped intersection may hold members that are not common to all the sets
  (`UnsafeExample`): `AlwaysSoundIff` and `AlwaysCountsIff` say for which sets and limits
  the result, and its size, are right whatever the order of visits.
- LREM from the head skips the neighbour of what it removes: `ScanSkipsNeighbour` is the
  input, `ScanIsDropFirstIff` and `RemovesAllIff` are the conditions.
- The string comparison is not transitive: `NotTransitive` is the input, `IntransitiveIff`
  the exact condition; `IsLexIff` says where it is lexicographic order.
- ZUNION's own builder prints weights that its extractor refuses when they are not whole,
  and a key that is a keyword is taken for one (`WrongWeightsRejected`, `KeywordKeyIsLost`):
  `BuilderUndoneIff` is the exact condition, and `ExtractUndoesBuildIff` that for options in
  any order.

Conventions: strings stand for bytes, one char a byte; a clock, a random draw, the order
of a map iteration and the outcome of an unstable sort are parameters or arbitrary.

## Model

| member | source | states |
|---|---|---|
| Resp.EncodeCommand | internal/utils.go:259-265 | the loop writes the array-of-bulk-strings frame of the command |
| Resp.EncodeExample | internal/utils.go:259-265 | the bytes of one command, spelled out |
| Resp.ReadValueOf | internal/utils.go:59-73 | reading a frame back gives its tokens, whatever bytes they hold and whatever follows, and stops where the frame ends |
| Resp.EncodePrefixFree | internal/utils.go:259-265 | no two commands share a frame and no frame is a prefix of another |
| AppendLog.EncodedIsLoggable | sugardb/modules.go:180-184 | an encoded command may be logged exactly when it is not a SELECT |
| AppendLog.SelectFrameReadable | internal/aof/log/store.go:151 | the printed SELECT frame can be read back exactly for databases 0 to 9 |
| AppendLog.SelectFrameExample | internal/aof/log/store.go:151 | the bytes of two SELECT frames, spelled out: the second announces one byte and has two |
| AppendLog.ReplayRefinesFrames | internal/aof/log/store.go:178-224 | the byte-level replay loop does what a frame-by-frame replay does, unreadable frames included |
| AppendLog.Store.Write | internal/aof/log/store.go:138-169 | appends the command, after a SELECT frame if the database changes |
| AppendLog.Store.Truncate | internal/aof/log/store.go:226-251 | leaves one SELECT frame of the current database |
| AppendLog.Store.Restore | internal/aof/log/store.go:178-224 | the loop hands over the replay of the bytes in the file and reports its failure |
| AppendLog.LogRoundTrip | internal/aof/log/store.go:138-251 | over every run of writes, truncations and reopenings, replay succeeds exactly when every SELECT frame left is of a database 0 to 9, and then hands over exactly the (database, command) pairs written since the last truncation |
| AppendLog.SelectsOnlyOnChange | internal/aof/log/store.go:147-156 | while the file stays open no SELECT frame selects what is selected already |
| AppendLog.EarlyCutLosesTheLog | internal/aof/log/store.go:226-251 | after a truncation with no database selected, replay fails at once and hands over nothing of what is written |
| Database.FilterExpiredKeys | internal/utils.go:209-228 | the nested loops delete exactly the keys of every database whose expiry time is before now, and change no other entry |
| Database.FilterIsInvisible | internal/utils.go:209-228 | an earlier filter changes nothing that a later reader or filter can see |
| Database.ReloadedIsInvisible | internal/aof/preamble/store.go:139-170 | a stored state filtered and loaded again looks the same to every later reader |
| Recovery.Server.SetKeyData | sugardb/sugardb.go:308-314 | sets one entry with value and expiry, creating its database if need be |
| Recovery.PreambleStore.CreatePreamble | internal/aof/preamble/store.go:107-137 | the file holds the live state without its expired keys, or nothing if the process dies in between |
| Recovery.PreambleStore.Restore | internal/aof/preamble/store.go:139-170 | the loops load exactly the unexpired stored entries; an empty file loads nothing |
| Recovery.Engine.HandleWrite | sugardb/modules.go:174-184 | a handler changes the live state, and its command is then logged exactly if it did not fail, as one step |
| Recovery.Engine.RewriteLog | internal/aof/engine.go:163-181 | new preamble of the live state, then a truncated log |
| Recovery.Engine.DieInRewrite | internal/aof/engine.go:170-178 | the process dies with the preamble emptied, or written, and the log as it was |
| Recovery.Engine.Restore | internal/aof/engine.go:183-191 | an empty server ends with the preamble loaded and the log replayed over it |
| Recovery.RestartEngine | internal/aof/engine.go:108-155 | a new process over the same files and a restore are one restart step |
| Recovery.CrashEngine | internal/aof/engine.go:108-178 | such a death and a restart are one crash step |
| Recovery.RecoveredLater | internal/aof/engine.go:183-191 | restoring the same files later differs only in keys expired in between |
| Recovery.RecoveryRefinesLiveState | internal/aof/engine.go:157-191 | after any run of commands, rewrites, restarts, crashes in rewrites and lazy expirations whose log is well framed, replay succeeds and the restored state is the live state up to expired keys, for every apply that cannot tell an expired key from an absent one nor one time from another |
| KeyHistories.WriteLookup | internal/modules/generic/commands.go:35-356 | a write changes the keys it names only: SET and MSET keep the expiry time of a present key, SET with a time or a time to live gives it, EXPIRE, EXPIREAT and PERSIST touch present keys only, DEL removes |
| KeyHistories.WriteEffects | internal/modules/generic/commands.go:35-356 | write by write, the value and the expiry time that the key it names holds afterwards; other keys and databases are untouched |
| KeyHistories.MemoryIsPlayed | sugardb/modules.go:174-184 | after every well-framed run memory holds of each key what its history makes of the entry that the log started from, reads that drop expired keys included |
| KeyHistories.RestoredKey | internal/aof/engine.go:183-191 | a restore makes of it what the logged part of the history, with times to live counted from the restore, makes of that entry, or of none if it has expired |
| Overwrites.KeyRecoversIff | sugardb/keyspace.go:216-224 | from any two entries of one value and after any events, the two look alike exactly when the fork between them does not show: no SET inherited an expiry time on one side only, no key is held and unexpired on one side only, and no two expiry times differ unless both have passed |
| Overwrites.RunRecoversIff | internal/aof/engine.go:157-191 | after any well-framed run of writes, rewrites, restarts, crashes and reads, a restore rebuilds the live state exactly when the run endangers no key |
| Overwrites.WrittenKeyIff | internal/aof/engine.go:170-178 | replaying the whole log over the entry it led to gives that entry exactly when a log without DEL or SET with a time gives the expiry time that memory has and does not make an expired key again |
| Overwrites.CrashRecoversIff | internal/aof/engine.go:163-181 | after any well-framed run, a rewrite that dies with the preamble emptied or written, and a restart, give the live state back exactly when no key is endangered by it |
| Overwrites.PlainWritesRecover | internal/aof/engine.go:163-191 | clients that SET, MSET and DEL only lose nothing by a restart, nor by a crash after the preamble is written, after any well-framed run |
| BadRuns.SetAfterExpiry | sugardb/keyspace.go:217-224 | after any run that ends with the rewrite of an entry that has expired since, one SET makes memory hide the key and a restore show it |
| BadRuns.ReadBeforeSetRescues | sugardb/keyspace.go:165-186 | a read that drops the expired key before the SET makes it safe |
| BadRuns.SetAfterReadIsLost | sugardb/keyspace.go:165-186 | but while the log still makes the expired entry, a SET after such a read is lost by a restore |
| BadRuns.BadRestarts | sugardb/keyspace.go:165-224 | a run of each kind, from the empty server on |
| BadRuns.TimeToLiveIff | internal/modules/generic/utils.go:55-84 | after any run that ends with a SET for a time to live, a restore counts it from its own clock, and differs unless it comes at that very moment or both times have passed |
| BadRuns.EmptiedPreambleLoses | internal/aof/preamble/store.go:117-127 | after any run that ends with the rewrite of an entry, a rewrite that dies with the preamble emptied loses it |
| BadRuns.ExpireBeforeSetReturns | internal/modules/generic/commands.go:326-356 | after any run that logged an EXPIREAT of an absent key, and a SET, a crash with the preamble written gives the key that expiry time, and a restart without the crash does not |
| BadRuns.BadCrashEmptied | internal/aof/preamble/store.go:117-127 | a SET, a rewrite and a dying rewrite, from the empty server on |
| BadRuns.BadCrashWritten | internal/aof/engine.go:170-178 | an EXPIREAT, a SET and a dying rewrite, from the empty server on |
| BadRuns.CanAsk | sugardb/modules.go:180-184 | loggable messages for any two writes can be had, so the lemmas above are about something |
| BadRuns.SetSeesExpiredKeys | sugardb/keyspace.go:217-224 | SET is not blind: an expired entry hands its expiry time on |
| Heap.PushKeeps | internal/eviction/lfu.go:88-97 | a push keeps heap order and adds exactly the new item |
| Heap.FixKeeps | internal/eviction/lfu.go:121-123 | fixing after one item changed restores heap order and changes no other item |
| Heap.RemoveKeeps | internal/eviction/lfu.go:126-133 | a removal keeps heap order, cuts off exactly the item asked for and loses nothing else |
| Heap.PopKeeps | internal/eviction/lfu.go:73-108 | a pop keeps heap order and yields an item that no other precedes |
| Heap.DrainSorts | internal/eviction/lfu.go:73-80 | draining yields every item once in eviction order |
| EntryHeaps.EntryHeap.Swap | internal/eviction/lfu.go:82-86 | swaps two slots and keeps every back-pointer right |
| EntryHeaps.EntryHeap.SiftUp | internal/eviction/lfu.go:73-86 | the in-place loop is the function `Up`, back-pointers kept |
| EntryHeaps.EntryHeap.SiftDown | internal/eviction/lfu.go:73-86 | the in-place loop is the function `Down`, and reports whether it moved anything |
| LFU.CacheLFU.GetCount | internal/eviction/lfu.go:49-62 | the count of the key's entry, or none |
| LFU.CacheLFU.Update | internal/eviction/lfu.go:110-124 | pushes a new key or counts one more, and keeps heap, back-pointers and key set in agreement |
| LFU.CacheLFU.Delete | internal/eviction/lfu.go:126-133 | removes the key's entry through its own index, and the key |
| LFU.CacheLFU.HeapPop | internal/eviction/lfu.go:99-108 | removes the top entry and its key: no cached key has a lower count, nor the same count and a later entry time |
| LFU.CacheLFU.Flush | internal/eviction/lfu.go:64-67 | may be called at any time; the cache can be used afterwards exactly when it had no slots |
| LFU.TouchLookup | internal/eviction/lfu.go:110-124 | an access changes the entry of its key only: one more access, or a new entry |
| LFU.DropLookup | internal/eviction/lfu.go:126-133 | a deletion changes the entry of its key only |
| LFU.PopLookup | internal/eviction/lfu.go:99-108 | a pop removes the key on top only |
| LFU.PopIsFirst | internal/eviction/lfu.go:73-80 | no cached key has fewer accesses than the popped one, nor as many and a later entry time |
| LFU.DrainLists | internal/eviction/lfu.go:73-108 | draining lists every cached key once, by ascending count, newest first on ties |
| LFU.RunCounts | internal/eviction/lfu.go:49-133 | after every run each cached key carries the number of its accesses since it last entered and the time it entered, and no other key is cached |
| LFU.RunPopsLeastUsed | internal/eviction/lfu.go:73-108 | after every run the key popped next has been accessed no more often than any other cached key, and among those accessed as often it entered last |
| LFU.LessUsedGoesFirst | internal/eviction/lfu.go:73-80 | of a key accessed once and a key accessed twice the first is popped |
| LRU.CacheLRU.Update | internal/eviction/lru.go:100-113 | pushes an entry every time and refreshes the first entry of the key |
| LRU.CacheLRU.HeapPop | internal/eviction/lru.go:89-98 | removes the top entry; heap order and back-pointers stay |
| LRU.CacheLRU.Delete | internal/eviction/lru.go:115-122 | removes one entry of the key |
| LRU.CacheLRU.Flush | internal/eviction/lru.go:61-64 | may be called at any time; the cache can be used afterwards exactly when it had no slots |
| LRU.RunLatest | internal/eviction/lru.go:70-113 | after any run of accesses under a clock that never goes back: a heap, one entry an access, and the latest entry of each key has its last access time |
| LRU.DrainIsByRecency | internal/eviction/lru.go:70-113 | draining gives non-increasing times, and a key's first appearance carries its last access time |
| LRU.AccessedKeyAppears | internal/eviction/lru.go:80-113 | every accessed key has a first appearance |
| LRU.PopIsMostRecent | internal/eviction/lru.go:70-113 | after any run of accesses the popped key is a most recently accessed one |
| LRU.PopsLeastRecentIff | internal/eviction/lru.go:70-72 | it is a least recently accessed one exactly when all keys were last accessed at one time |
| LRU.LaterGoesFirst | internal/eviction/lru.go:70-72 | of two keys accessed one after the other the later one is popped first |
| Keyspace.MemoryAccounting | sugardb/keyspace.go:200-315 | over every legal run the memory counter is the live cost, plus the cost of every overwritten or flushed version, less the cost of what was stored without being counted or deleted without being there |
| Keyspace.MemoryNeverShort | sugardb/keyspace.go:200-315 | with supported values and present keys it is never less than the live cost, and equal to it exactly when nothing was overwritten or flushed |
| Keyspace.DatabaseCostIs | sugardb/keyspace.go:226-232 | the cost of a database is 40 bytes an entry, plus the sizes of the values and the lengths of the keys |
| Keyspace.LiveCostIs | sugardb/keyspace.go:226-232 | the live cost is that of all databases |
| Keyspace.CallIsRun | sugardb/keyspace.go:209-240 | a call that sets many keys, in whatever order and up to a value of an unsupported type, is a run of single operations |
| Keyspace.SetInOrderLookup | sugardb/keyspace.go:209-224 | after such a call each key reached holds its new value and the expiry time it had, or none if it was absent, and every other key of every database is as it was |
| StoreWrites.SetsAreSetMany | sugardb/keyspace.go:209-240 | with supported values the store is what a SET or MSET of the entries makes of it in the recovery model |
| StoreWrites.ExpiryIsExpire | sugardb/keyspace.go:252-268 | on a present key, setting and clearing the expiry time are the EXPIREAT and PERSIST of the recovery model |
| StoreWrites.DeletesAreDel | sugardb/keyspace.go:281-315 | deleting keys one by one is the DEL of the recovery model |
| Keyspace.TrackerIsComplete | sugardb/keyspace.go:252-335 | after every run, flushes included, each key with an expiry time is listed for its database |
| Keyspace.TrackerIsExact | sugardb/keyspace.go:252-335 | in runs without flushes the lists name present keys only, each once |
| Keyspace.FlushLeavesStaleNames | sugardb/keyspace.go:105-108 | a flush leaves the lists exact exactly when the flushed database's list was empty |
| Keyspace.StaleNameExample | sugardb/keyspace.go:105-108 | a run of four operations that leaves a stale name |
| Eviction.LoopEvictsPrefix | sugardb/keyspace.go:461-494 | the loop evicts a prefix of the drain order, reports success only when the counter, read as unsigned, is below the limit, and otherwise ends with an empty cache or a key that cannot be deleted; at every earlier turn the counter is at least the limit |
| Eviction.LoopReports | sugardb/keyspace.go:461-494 | started over the limit, the loop reports success exactly when the counter it leaves is below the limit |
| Eviction.EvictionTakesExactly | sugardb/keyspace.go:281-315 | store, cache, tracker and counter lose exactly the evicted keys and their cost |
| Eviction.EvictedFirst | sugardb/keyspace.go:473-476 | a key that went has a lower count than one that stays, or the same count and an entry time no earlier |
| Eviction.CachesAgreeWithStore | sugardb/keyspace.go:200-404 | over every run without flushes each cache is a heap with one entry a key and names present keys only |
| Eviction.EvictTurns | sugardb/keyspace.go:461-494 | turns of the loop are acts of a run |
| Eviction.AdjustTakesShortestPrefix | sugardb/keyspace.go:436-494 | at the end of every run without flushes and unsupported values, adjusting takes away the shortest prefix of the drain order that brings memory under the limit, and exactly these keys and their cost; it fails only under memory pressure with an empty cache, never on a deletion |
| Eviction.RecencyLoopDeletes | sugardb/keyspace.go:495-527 | the loop over a recency cache deletes cached keys, the one on top first; the counter is at least the limit at every earlier turn and below it exactly on success; otherwise it ends with an empty cache or a key that cannot be deleted |
| Eviction.DeletesKeepCountIff | sugardb/keyspace.go:281-291 | deletions keep the count in step with what is stored exactly when every key is there and none comes twice; otherwise it ends too low |
| Eviction.PhantomEviction | sugardb/keyspace.go:495-527 | a key with three entries is deleted twice, and the loop reports memory under the limit while what is stored is over it |
| Servers.SugarDB.CreateDatabase | sugardb/keyspace.go:317-335 | an empty store, an empty expiry list and two fresh caches that share nothing with the others |
| Servers.SugarDB.SetValues | sugardb/keyspace.go:200-250 | refuses exactly when nothing may be evicted and the counter is at least a limit other than 0; otherwise sets the entries in some order, up to a value of an unsupported type, and each key keeps the expiry time it had; the caches there were stay, and a new database gets its own |
| Servers.SugarDB.SetExpiry | sugardb/keyspace.go:252-268 | sets the expiry time, keeps the value, lists the key, and changes no other key |
| Servers.SugarDB.DeleteKey | sugardb/keyspace.go:281-315 | takes the key from store, counter (40 bytes, the name and the value's size), list and the cache that the policy uses, or fails and changes nothing; a database that was never created is accepted where no cache is used |
| Servers.SugarDB.Flush | sugardb/keyspace.go:105-112 | empties the store, zeroes the list; each cache can be used on exactly when it had no slots; flushing again is allowed |
| Servers.SugarDB.UpdateKeyInCache | sugardb/keyspace.go:374-404 | policy by policy, counts or times an access of a present key in the frequency or the recency cache, under a volatile policy only if the key expires; the caches stay apart |
| Servers.SugarDB.AdjustMemoryUsage | sugardb/keyspace.go:436-527 | the heap-and-store loop over either cache is the function that LoopEvictsPrefix, or RecencyLoopDeletes, is about; nothing changes if the counter is below the limit at the start, and success is reported exactly if it is so at the end |
| ScoreAlgebra.ScoresOfHolders | internal/modules/sorted_set/sorted_set.go:305-476 | the flat union holds a member when some set does, the flat intersection when all do |
| ScoreAlgebra.FoldMeaning | internal/modules/sorted_set/sorted_set.go:333-344 | the flat score is the sum, the least or the greatest of the weighted scores |
| ScoreAlgebra.WeightsApplied | internal/modules/sorted_set/sorted_set.go:314-359 | set by set: the flat score is the sum of the scores times the sets' weights, or the one of these products that bounds them all |
| ScoreAlgebra.WeightsExample | internal/modules/sorted_set/sorted_set.go:333-359 | one member with score 1 in two sets of weights 2 and 3: 5, 2 and 3 |
| ScoreAlgebra.UnionSplits | internal/modules/sorted_set/sorted_set.go:364-400 | the flat union of two blocks is the merge of their flat unions |
| ScoreAlgebra.IntersectionSplits | internal/modules/sorted_set/sorted_set.go:448-474 | the same for intersections of non-empty blocks |
| ScoreAlgebra.OrderDoesNotMatter | internal/modules/sorted_set/sorted_set.go:305-476 | the result does not depend on the order of the sets |
| SortedSets.Union | internal/modules/sorted_set/sorted_set.go:304-402 | a fresh set equal to the flat union at every depth; it holds a member when some set does, with the sum of its scores times the weights, or the least or the greatest of these products; inputs unchanged |
| SortedSets.Intersect | internal/modules/sorted_set/sorted_set.go:404-476 | a fresh set equal to the flat intersection, with the members that all the sets hold and the same scores; inputs unchanged |
| SortedSets.SortedSet.Pop | internal/modules/sorted_set/sorted_set.go:251-284 | popped and remaining members split the set, min(count, size) are popped, for MIN none that stays has a lower score than one popped, for MAX none a higher one; the two errors change nothing |
| SortedSets.SortedSet.AddOrUpdate | internal/modules/sorted_set/sorted_set.go:147-241 | accepts exactly the valid option combinations, changes nothing otherwise; in the words of the options: what one member's score and the count become, and what NX, XX, GT and LT keep for any list; INCR adds |
| SortedSets.UpdatesAppend | internal/modules/sorted_set/sorted_set.go:204-241 | members given in one call or in two: the same scores, and the counts add up |
| SortedSets.NxOnlyAdds | internal/modules/sorted_set/sorted_set.go:218-229 | NX changes no present score, adds every new member and counts the additions |
| SortedSets.XxOnlyUpdates | internal/modules/sorted_set/sorted_set.go:204-217 | XX keeps the members as they are and touches only the scores given |
| SortedSets.GtKeepsGreatest | internal/modules/sorted_set/utils.go:154-169 | with GT a present score ends as the greatest of it and those given |
| SortedSets.LtKeepsLeast | internal/modules/sorted_set/utils.go:154-169 | with LT as the least |
| Sets.Set.Add | internal/modules/set/set.go:57-67 | adds the elements, counts the new ones, keeps the length right |
| Sets.Set.Remove | internal/modules/set/set.go:123-133 | removes the elements, counts those that were there, keeps the length right |
| Sets.Set.Move | internal/modules/set/set.go:160-167 | the two sets together keep their members, also when they are one set |
| Sets.Set.GetRandom | internal/modules/set/set.go:85-121 | for a positive count below the size, that many distinct members in exactly that many draws; the other counts as documented |
| Sets.Set.Pop | internal/modules/set/set.go:135-139 | leaves exactly the complement of what it returns |
| Sets.DrawDistinct | internal/modules/set/set.go:106-118 | kept and drawn keys stay disjoint, so that no draw is thrown away |
| Sets.DeleteDrawn | internal/modules/set/set.go:112-114 | deletes exactly the drawn slot although its predicate looks at that slot while elements shift over it |
| Sets.Union | internal/modules/set/set.go:203-217 | returns the first set holding the union of all original members; every input ends between its original members and the union, aliases allowed |
| Sets.Intersection | internal/modules/set/set.go:169-201 | result and flag are what the recursion computes in the orders in which the loops visited their members |
| Sets.OutcomeIff | internal/modules/set/set.go:172-201 | the outcomes that the lemmas below speak of are exactly what the recursion computes in some orders of visits |
| Sets.LoopMeans | internal/modules/set/set.go:180-188 | the loop over two sets sees all members and sets no flag, or as few as hold `limit` common ones with at least one member still to come |
| Sets.NotStoppedIsExact | internal/modules/set/set.go:172-201 | a result without the flag is exactly the intersection of all the sets |
| Sets.StoppedIsInBlock | internal/modules/set/set.go:181-198 | a flagged result has exactly `limit` members, all common to a block of neighbouring sets |
| Sets.NoLimitIsExact | internal/modules/set/set.go:169-201 | without a limit the result is exact and never flagged |
| Sets.TwoSetsSize | internal/modules/set/set.go:177-189 | two sets give min(limit, common members) common members |
| Sets.AlwaysSoundIff | internal/modules/set/set.go:172-201 | whatever the order of visits the result is part of the whole intersection, exactly when no loop over two sets or halves that can be reached may stop with a member outside it |
| Sets.AlwaysCountsIff | internal/modules/set/commands.go:246-248 | the size is the least of the limit and the number of common members, whatever the order of visits, exactly when no loop that can be reached may stop, or there are that many common members |
| Sets.UnsafeExample | internal/modules/set/set.go:189-200 | three sets with nothing in common, and orders of visits with a result of one member |
| ListRemove.Remove | internal/modules/list/commands.go:254-295 | by the sign of the count: negative, the last min(-count, occurrences) copies go; otherwise those copies before which an even number of copies stand directly, as long as fewer than the count have gone, or all of these for 0; and it reports how many copies have gone |
| ListRemove.DropLastMeaning | internal/modules/list/commands.go:276-287 | a negative count removes exactly the last min(count, occurrences) occurrences and keeps the rest in order |
| ListRemove.ScanMissesOnly | internal/modules/list/commands.go:257-275 | the loop from the head loses copies of the value only, and at most count of them |
| ListRemove.ScanSlots | internal/modules/list/commands.go:257-275 | on every list, which slots the loop from the head empties: in each run of copies the first, the third and so on, up to the count |
| ListRemove.SlotsExample | internal/modules/list/commands.go:265-275 | the first of two separate copies goes, and of three neighbours the middle one stays |
| ListRemove.DropFirstMeaning | internal/modules/list/commands.go:265-275 | what a positive count is for: the first min(count, occurrences) occurrences |
| ListRemove.ScanIsDropFirstIff | internal/modules/list/commands.go:265-275 | the loop from the head does that exactly when, at the first run of two or more copies, the removals left are at most half the run, rounded up |
| ListRemove.RemovesAllIff | internal/modules/list/commands.go:257-264 | count 0 removes every occurrence exactly when no two are adjacent |
| ListRemove.ScanSkipsNeighbour | internal/modules/list/commands.go:265-275 | of two neighbours that are to go one stays |
| Lexicographic.CompareLex | internal/utils.go:230-257 | the loop computes the comparison function |
| Lexicographic.Antisymmetric | internal/utils.go:230-257 | swapping the strings swaps the sign |
| Lexicographic.ZeroOnlyOnEqual | internal/utils.go:230-257 | 0 exactly on equal strings |
| Lexicographic.IsLexIff | internal/utils.go:236-241 | it is bytewise lexicographic order exactly when neither string occurs in the other while being the greater at the first difference |
| Lexicographic.CycleIff | internal/utils.go:236-241 | three strings form a cycle exactly when, in lexicographic order, the first contains the last, but not the middle one, and the middle one does not contain the last |
| Lexicographic.IntransitiveIff | internal/utils.go:230-257 | transitivity fails on exactly these triples |
| Lexicographic.TransitiveOnOneLength | internal/utils.go:243-256 | a total order on strings of one length |
| Lexicographic.NotTransitive | internal/utils.go:236-241 | b < ab < ac < b |
| ZArguments.ExtractArguments | internal/modules/sorted_set/utils.go:24-92 | the loops extract what the function says, errors and out-of-range slices included |
| ZArguments.ExtractUndoesBuild | internal/modules/sorted_set/utils.go:24-92 | whatever the order of the options and the case of their words: with whole weights of 64 bits that match the keys and an aggregate that there is, the extractor gives back keys, weights, lower-cased aggregate ("sum" if omitted) and the WITHSCORES flag exactly when no key is a keyword |
| ZArguments.ExtractUndoesBuildIff | internal/modules/sorted_set/utils.go:24-92 | for any keys, and any options in any order, weights omitted (then all 1) or printed: exactly when no key is a keyword, the aggregate is one that there is, and the weights match the keys and are whole |
| ZArguments.BuilderUndoneIff | sugardb/api_sorted_set.go:384-400 | what ZUnion puts together from its arguments, omitted options included, is taken out of it again under exactly these conditions |
| ZArguments.OptionsExample | internal/modules/sorted_set/commands_test.go:5039 | a command with the weights last, as the repository's tests have it |
| ZArguments.WrongWeightsRejected | internal/modules/sorted_set/utils.go:83-84 | weights that do not match the keys, or that are printed with a point, are refused |
| ZArguments.KeywordKeyIsLost | internal/modules/sorted_set/utils.go:60-80 | a key named like a modifier leaves no key |

## Left out

- Goroutines, mutexes, fsync strategies and garbage collection: a locked region is one atomic step and a file write is a whole one; applying and logging a command are one step, and no command is logged between the state copy and the truncation of a rewrite.
- JSON encoding of the preamble, the files themselves and I/O errors: the preamble file holds a state or nothing.
- The server's replay path after the callback (`sugardb/modules.go:115-121`), which takes the database from the connection table instead of the replayed frame.
- RESP values other than arrays of bulk strings, and messages that are not one whole well-formed command; the reader is written from the RESP2 specification, sections "Bulk strings" and "Arrays".
- Case folding outside ASCII, which `strings.EqualFold` also does.
- The snapshot engine and the raft state machine, which repeat the preamble's filter and load.
- Recovery.RecoveryRefinesLiveState: asks that commands be blind to expired keys and to the clock, because SET and EXPIRE are not; the exact condition for these is in `Overwrites`, and commands such as RENAME or INCR are covered only through the parameter.
- SET with NX, XX or GET, and EXPIRE and EXPIREAT with NX, XX, GT or LT, whose conditions look at the key.
- Handlers that fail after changing something: the change is in the contract of HandleWrite, but such a command is no step of the runs.
- Recovery.Server.SetKeyData: the refusal of a value over the memory limit, after which the source stores the expiry time with a nil value.
- The sizes of hashes, lists and composite values, and values that are changed in place after they are stored: a value carries its size.
- 64-bit wrap-around of the memory counter; its conversion to an unsigned number is modelled.
- Cluster mode, and the random and TTL-sampling branches of eviction.
- Flush with database -1, which is a flush of each database in turn; and the interleaving of the per-database eviction goroutines.
- Servers.SugarDB.DeleteKey: takes the policy as already lower-cased, as the command line makes it.
- The recency cache's GetTime, which repeats the frequency cache's GetCount; and runs that mix accesses of a recency cache with deletions.
- Infinite and NaN scores and float rounding; sorted-set random members and subtraction.
- SortedSets.SortedSet.Pop: takes the sorted listing as an argument, any one that the sort may leave.
- Reply texts, argument parsing and the error replies of LREM for a missing key, a wrong type or a count that is not a number.
- ACLs, pub/sub, hashes, generic and string handlers, networking, configuration and plugins.
