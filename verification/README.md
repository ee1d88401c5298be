# Deep: verified models of the query, ingest and compaction core

A Dafny model of the parts of Deep whose correctness is not visible in any single
function: iterators that skip work in the background, a block lifecycle that must
survive crashes, queues and caches shared by goroutines, and splits of a request that
must cover it. `dafny verify dfyconfig.toml` checks everything.

The project follows the system's components.

- **Parquet query** (`RowNumbers`, `Striping`, `Parquet`, `Predicates`, `Nulls`, `Verdicts`,
  `Scan`, `ColumnIterator`, `Cogroup`, `Rounds`, `Iterators`, `Plans`). The naive meaning of a query is a
  function: number every value, filter it, group by truncated row number. The classes are
  the fast form: a column scan that skips pages and row groups while a consumer seeks, with
  every interleaving of the two, and joins that leap ahead. They are proved to deliver
  exactly the naive meaning, for any tree of iterators and any mixture of Next and SeekTo.
  For which columns row numbers mean positions in the record tree is proved from column
  striping as in "Repetition and Definition Levels", section 4.1 of the Dremel paper.
- **Ingester** (`BlockLifecycle`, `TenantBlocks`, `FlushQueues`). A state machine of all
  durable writes with crashes anywhere, the tenant's block manager as a class, and the
  flush queues on an explicit heap.
- **Storage** (`BufferedReader`, `Compaction` with `Formatting` and `Arithmetic`). Concurrent
  reads through shared buffers, and stripe selection with the ownership hash that keeps two
  compactors apart.
- **Frontend** (`SearchSharding`, `BlockBoundaries`). Splits by time, by page and by block ID.
- **Protocols** (`JumpHash`, `Memcached`, `SearchResults`, `ClusterSeed`).

`Wrappers` holds the option type that all of them share.

Where a promise does not hold without a condition, the exact condition is proved as an
if-and-only-if: `NumbersArePositionsIff`, `PageNullsIff`, `ChunkNullsIff`, `SeekExactIff`,
`SameHashIff`, `SplitCompleteIff`, `EveryPageOnceIff`, `IncreasingIff`, `MergeCommutesIff`,
`ReplicasAgreeIff`, `LateStartIff`.

Code and comments disagree in a few places; the model follows the code. `cutoffTime` adds
the idle period instead of subtracting it (modules/ingester/tenantBlockManager.go:503), so
snapshots are cut without regard to idle age. The comment on
`RegexNotIn` speaks of a match against any expression; the code keeps a value that fails to
match at least one of them (pkg/parquetquery/predicates.go:149-155). `Close` on a queue leaves
it accepting; only `closed` refuses (pkg/flushqueues/priority_queue.go:108). Compaction levels
are compared as strings, so "lowest level first" is not claimed.

## Model

| member | source | states |
|---|---|---|
| `RowNumbers.CompareMeaning` | pkg/parquetquery/iters.go:68-78 | comparing up to a definition level is lexicographic order on the components up to that level, in both directions, and equality is equality of that prefix |
| `RowNumbers.CompareRowNumbers` | pkg/parquetquery/iters.go:68-78 | the loop computes that comparison |
| `RowNumbers.Order` | pkg/parquetquery/iters.go:68-78 | at every level the comparison is a total preorder: reflexive, antisymmetric in sign, transitive, also when mixed with strict steps |
| `RowNumbers.Coarser` | pkg/parquetquery/iters.go:68-78 | a coarser comparison never contradicts a finer one |
| `RowNumbers.TruncateRowNumber` | pkg/parquetquery/iters.go:80-86 | the loop keeps the components up to the level and clears the rest |
| `RowNumbers.TruncateKeeps` | pkg/parquetquery/iters.go:80-86 | truncating a target does not change any comparison at that level |
| `RowNumbers.TruncateMeaning` | pkg/parquetquery/iters.go:80-86 | truncations are equal exactly for row numbers that agree up to the level; truncating twice changes nothing |
| `RowNumbers.NextInPlace` | pkg/parquetquery/iters.go:107-120 | the in-place update of the array is the function Next of its old contents |
| `RowNumbers.NextAdvances` | pkg/parquetquery/iters.go:107-120 | a step with repetition level r moves strictly forward at every level from r on and not at all below r |
| `RowNumbers.SkipInPlace` | pkg/parquetquery/iters.go:123-128 | the in-place update is the function Skip of the old contents |
| `RowNumbers.NextAtRoot` | pkg/parquetquery/iters.go:123-128 | after a skip only the root component matters: the next row gets the same number as after a full scan |
| `RowNumbers.SkipMeaning` | pkg/parquetquery/iters.go:123-128 | a skip lands the given number of rows further, with no children set |
| `Striping.NumbersArePositionsIff` | pkg/parquetquery/iters.go:92-120 | for a column given by its optional and repeated fields: numbering the levels that striping emits gives each value its path in the record tree, for all records, if and only if no optional field lies above a repeated one |
| `Striping.RepeatedFirstSuffices` | pkg/parquetquery/iters.go:92-120 | the positive half, for every list of conforming records |
| `Striping.ForkMisnumbered` | pkg/parquetquery/iters.go:107-120 | the failing half: below an optional field the second of two repeated values is numbered as if an outer field had been repeated (the column Watches.GoodResult.Modifiers of the snapshot schema has this shape) |
| `Striping.NumberNode` | pkg/parquetquery/iters.go:107-120 | the positive half below any node, continuing from whatever was numbered before it |
| `Striping.NumberConcat` | pkg/parquetquery/iters.go:107-120 | numbering a concatenation is numbering the parts one after the other |
| `Scan.FullRises` | pkg/parquetquery/iters.go:107-120 | row numbers of a full scan strictly increase and stay within the rows scanned |
| `Scan.FullConcat` | pkg/parquetquery/iters.go:324-483 | a full scan of pages one after the other is the scan of their concatenation |
| `Scan.FullCarries` | pkg/parquetquery/iters.go:568-575 | a full scan has one result per kept value, in order; each has the row number reached at its value and carries the value under the selected name, or nothing if no name was given |
| `Scan.PassOver` | pkg/parquetquery/iters.go:342-419 | skipping a run of whole rows by Skip loses only results below the seek target's row, or nothing when no value would be kept |
| `Scan.SkipPage` | pkg/parquetquery/iters.go:407-419 | skipping a page keeps the background scan well formed and only thins its remaining results below the seek row |
| `Scan.SkipGroup` | pkg/parquetquery/iters.go:373-386 | the same for a whole row group |
| `Scan.ThinnedSeek` | pkg/parquetquery/iters.go:541-566 | thinning below the target's row is invisible after seeking to that target, at any level |
| `Columns.ColumnIterator.constructor` | pkg/parquetquery/iters.go:304-318 | a new iterator is due to deliver exactly the filtered full scan of all row groups |
| `Columns.ColumnIterator.ReadChunk` | pkg/parquetquery/iters.go:421-465 | the buffer filled from up to n values is the filtered, numbered list of those values, and the row number advances over all of them |
| `Columns.ColumnIterator.Step` | pkg/parquetquery/iters.go:324-483 | one step of the background scan (row group, page or chunk, skipping by predicate or by the current seek target) keeps the invariant, loses nothing at or above the seek row, and uses up work |
| `Columns.ColumnIterator.Yield` | pkg/parquetquery/iters.go:324-483 | any number of background steps between two consumer steps keeps all of that |
| `Columns.ColumnIterator.Receive` | pkg/parquetquery/iters.go:520-536 | taking the next buffer from the channel, with the background scan interleaved arbitrarily, yields the next result still due, or the end only when nothing is due |
| `Columns.ColumnIterator.Next` | pkg/parquetquery/iters.go:487-537 | whatever the interleaving: the first result still due, which is then due no more; the end exactly when none is left |
| `Columns.ColumnIterator.Idle` | pkg/parquetquery/iters.go:541-555 | what the background scan does between two calls, still under the old target, changes nothing that is due |
| `Columns.ColumnIterator.SeekTo` | pkg/parquetquery/iters.go:541-566 | for any target, level and interleaving, before and after the target is stored: the first due result at or above the target; exactly the results below it are given up |
| `Predicates.Predicate.MatchText` | pkg/parquetquery/predicates.go:138-159 | the memo never changes a verdict on a text, for regular expressions, their negation and substrings |
| `Predicates.Predicate.KeepValue` | pkg/parquetquery/predicates.go:87-95 | for every tree of predicates the answer is its stateless meaning, whatever the memo and dictionary flags hold |
| `Predicates.RangeSound` | pkg/parquetquery/predicates.go:316-342 | bounds that enclose a kept value are never ruled out |
| `Predicates.Predicate.IndexKeeps` | pkg/parquetquery/predicates.go:316-330 | a chunk is kept exactly if the bounds of some page in its column index are |
| `Predicates.Predicate.KeepColumnChunk` | pkg/parquetquery/predicates.go:68-85 | the exact verdict of the tree; a rejected chunk holds no non-null value that would be kept; caches are ready for the new row group |
| `Predicates.Predicate.OrKeepColumnChunk` | pkg/parquetquery/predicates.go:487-501 | every branch is told about the new row group even after one has accepted; nil accepts |
| `Predicates.Predicate.DictionaryKeepPage` | pkg/parquetquery/predicates.go:605-633 | the dictionary is asked once per row group; its verdict, reused for later pages, rejects only if no non-null value of the row group would be kept |
| `Predicates.Predicate.KeepPage` | pkg/parquetquery/predicates.go:337-342 | the exact verdict in the current state; a rejected page holds no non-null value that would be kept, however often caches were reused |
| `Predicates.Predicate.OrKeepPage` | pkg/parquetquery/predicates.go:503-515 | asking branches in turn until one accepts gives the disjunction of their verdicts before the call |
| `Predicates.AllNull` | pkg/parquetquery/predicates.go:651-653 | as many nulls as values exactly if every value is null |
| `Verdicts.PointRange` | pkg/parquetquery/predicates.go:332-342 | bounds of a single value are kept exactly if the value is |
| `Verdicts.RangeExact` | pkg/parquetquery/predicates.go:316-342 | bounds are kept exactly if some value within them would be kept, for string lists, integer and float ranges |
| `Verdicts.PageVerdicts` | pkg/parquetquery/predicates.go:97-102 | kind by kind, which part of a page decides: dictionary, bounds, bounds and else the dictionary, or the null count |
| `Verdicts.ChunkVerdicts` | pkg/parquetquery/predicates.go:68-85 | kind by kind, which chunks can be ruled out |
| `Verdicts.BytesOrder` | pkg/parquetquery/predicates.go:75-75 | the byte order used on bounds is lexicographic |
| `Verdicts.ContainsMeaning` | pkg/parquetquery/predicates.go:286-295 | a text contains a substring exactly if it can be split around it |
| `Nulls.PageNullsIff` | pkg/parquetquery/predicates.go:337-342 | for every leaf predicate: skipping pages loses no value, nulls included, on all truthful row groups, if and only if the predicate does not keep a null |
| `Nulls.ChunkNullsIff` | pkg/parquetquery/predicates.go:316-330 | the same for column chunks, unless the predicate rules out no range at all |
| `Cogroup.MeaningSound` | pkg/parquetquery/iters.go:621-748 | every result of the naive combination is the whole group of its key, has all required children, passes the group predicate and has a match |
| `Cogroup.MeaningComplete` | pkg/parquetquery/iters.go:621-748 | every key with a match, all required children and an accepted group is emitted |
| `Cogroup.MeaningStrict` | pkg/parquetquery/iters.go:621-748 | results come in strictly increasing key order, so each key once |
| `Cogroup.MissingRequired` | pkg/parquetquery/iters.go:640-643 | a required child that is exhausted ends the results |
| `Cogroup.SkipBelow` | pkg/parquetquery/iters.go:682-688 | seeking all children to where one required child stands loses no result |
| `Cogroup.SeekCommutes` | pkg/parquetquery/iters.go:691-712 | seeking every child and then combining is combining and then seeking, for levels up to the iterator's own |
| `Cogroup.UnionConserves` | pkg/parquetquery/iters.go:989-1094 | an unfiltered union emits every entry of every child as often as it occurs |
| `Rounds.MatchRound` | pkg/parquetquery/iters.go:664-688 | a round in which all required children tie: the next result or a discarded group, after which the final seek finds nothing to skip |
| `Rounds.LeapRound` | pkg/parquetquery/iters.go:682-688 | a round in which they do not: the seek to the highest head keeps the meaning and makes progress |
| `Rounds.Matched` | pkg/parquetquery/iters.go:664-680 | when all required children stand at one key, the collected group is the next result of the combination or is filtered out, and the rest is what remains; the entries left shrink |
| `Rounds.Leaped` | pkg/parquetquery/iters.go:682-688 | when they do not, seeking to the highest one changes nothing and the entries left shrink |
| `Rounds.Merged` | pkg/parquetquery/iters.go:1023-1040 | the lowest key's group is the next result of a union, or is filtered out |
| `Rounds.SurveyNext` | pkg/parquetquery/iters.go:630-662 | one more peek in the loop keeps lowest, highest and the tie count right |
| `Rounds.GatherNext` | pkg/parquetquery/iters.go:995-1021 | one more peek in the union's loop keeps the lowest row and the list of children that stand there right |
| `Rounds.SeekExactIff` | pkg/parquetquery/iters.go:691-712 | seeking the children and combining is combining and seeking, on all sorted streams, if and only if the seek level is not finer than the iterator's own |
| `Rounds.SeekTooFine` | pkg/parquetquery/iters.go:691-712 | the failing half: a stream and a target for every finer level |
| `Iterators.FanIterator.constructor` | pkg/parquetquery/iters.go:602-611 | a new Join, LeftJoin or Union over children in any state is due to deliver their naive combination |
| `Iterators.FanIterator.Peek` | pkg/parquetquery/iters.go:714-723 | peeking shows the child's next result and consumes nothing |
| `Iterators.FanIterator.SeekChildren` | pkg/parquetquery/iters.go:699-712 | every child, peeked or not, is moved to the target and only results below it are dropped |
| `Iterators.FanIterator.CollectChild` | pkg/parquetquery/iters.go:733-745 | appends exactly the child's entries of the key and leaves it behind them, other children untouched |
| `Iterators.FanIterator.Collect` | pkg/parquetquery/iters.go:1073-1094 | the group of the key, child by child in order, and every child advanced past it |
| `Iterators.FanIterator.CollectMatch` | pkg/parquetquery/iters.go:911-946 | optional children are first moved to the key, then contribute their entries after the required ones |
| `Iterators.FanIterator.Survey` | pkg/parquetquery/iters.go:630-662 | finds the lowest and highest key and whether all required children agree, or one that is exhausted |
| `Iterators.FanIterator.NextJoin` | pkg/parquetquery/iters.go:795-863 | the loop with leaps and discarded groups ends and returns the first result of the naive join, leaving the others |
| `Iterators.FanIterator.NextUnion` | pkg/parquetquery/iters.go:989-1043 | the same for the union |
| `Iterators.FanIterator.Next` | pkg/parquetquery/iters.go:621-689 | the first result still due, which is then due no more |
| `Iterators.FanIterator.SeekTo` | pkg/parquetquery/iters.go:1045-1057 | for levels up to its own: exactly the results below the target are dropped and the first remaining one is returned |
| `Iterators.Iter.Next` | pkg/parquetquery/iters.go:213-223 | the iterator contract for any tree of columns, joins, left joins and unions |
| `Iterators.Iter.SeekTo` | pkg/parquetquery/iters.go:213-223 | the seek contract for any such tree |
| `Iterators.OrderedMeaning` | pkg/parquetquery/iters.go:621-689 | the output of a composed iterator is strictly increasing at full depth and made of valid row numbers, so it can be a child again |
| `Plans.Query` | pkg/parquetquery/iters.go:602-1094 | from column data to output: for every plan of columns with filters, joins, left joins and unions, building the iterators and reading them to the end yields the plan's meaning, a recursive function of the data |
| `Plans.ColumnRows` | pkg/parquetquery/iters.go:568-575 | a column plan yields one result per kept value, in order, with its row number, carrying the value under the selected name |
| `Plans.Build` | pkg/parquetquery/iters.go:304-318 | the iterators built for a plan are valid, share nothing with anything older and are due to deliver the plan's meaning |
| `Plans.BuildFilter` | pkg/parquetquery/predicates.go:473-477 | the predicate objects built for a filter mean what the filter says; no object exactly for the filter that keeps everything |
| `Iterators.Drain` | pkg/parquetquery/iters.go:621-748 | reading any tree to its end terminates and yields exactly its naive meaning in order |
| `BlockLifecycle.CrashSafe` | modules/ingester/flush.go:269-366 | in every state of every run, crashes and restarts anywhere: all that was ever flushed to a block is in its WAL, in an intact local copy or remote, unless dropped after the last allowed attempt; this includes cuts whose new head cannot be created; a block's complete operation is enqueued at most once per process; a flushed marker implies the remote copy; a partial local block without a WAL is remote or dropped; at most three completion attempts; while serving, every block not yet remote is still known to the process |
| `BlockLifecycle.AppendedIsKept` | modules/ingester/tenantBlockManager.go:228-287 | a snapshot appended before a flush or cut of the head, with no crash between, is in some block's WAL history in every later state, crashes or not; CrashSafe then keeps it |
| `BlockLifecycle.AppendedIsHeld` | modules/ingester/tenantBlockManager.go:228-253 | until a crash, an appended snapshot is pending in memory or in some block's WAL history |
| `BlockLifecycle.FlushKept` | modules/ingester/tenantBlockManager.go:245-253 | flushing or cutting the head writes everything pending to its WAL |
| `BlockLifecycle.CutPath` | modules/ingester/tenantBlockManager.go:257-287 | a cut queues the head for completion and starts an empty one; a failed cut lists the head as completing, keeps it and queues nothing |
| `BlockLifecycle.CompletionPath` | modules/ingester/flush.go:269-316 | from every state a queued block can be completed: all it held becomes an intact, listed local block and the WAL is gone |
| `BlockLifecycle.FlushPath` | modules/ingester/flush.go:332-366 | from every state a complete block can be flushed: the remote store has all of it, then the marker and the memory say so |
| `BlockLifecycle.ClearPath` | modules/ingester/tenantBlockManager.go:359-383 | a flushed block can be cleared from disk and memory, the remote copy stays |
| `BlockLifecycle.FailurePath` | modules/ingester/flush.go:282-299 | a failed completion is retried until the third attempt, then the WAL is deleted and the block counts as dropped |
| `BlockLifecycle.ReplayPath` | modules/ingester/ingester.go:320-345 | after a restart a WAL block loses its leftover local copy and is queued again with all its snapshots |
| `BlockLifecycle.RediscoverPath` | modules/ingester/tenantBlockManager.go:552-594 | an intact local block without a WAL is listed again with its flushed state, a partial one is removed |
| `BlockLifecycle.StepKeeps` | modules/ingester/ingester.go:308-398 | every step, including boot, replay and rediscovery, keeps the invariant behind it |
| `BlockLifecycle.CompleteKeeps` | modules/ingester/tenantBlockManager.go:290-321 | writing the local copy piece by piece, listing it and failing keep it |
| `BlockLifecycle.DeleteKeeps` | modules/ingester/tenantBlockManager.go:324-383 | deleting the WAL, giving up and removing local files one by one keep it |
| `BlockLifecycle.FlushKeeps` | modules/ingester/local_block.go:92-116 | copying to the remote store, then writing the marker, then setting the flushed time keep it |
| `BlockLifecycle.RecoverKeeps` | modules/ingester/tenantBlockManager.go:531-594 | replaying a WAL block over a leftover local copy and rediscovering local blocks keep it |
| `BlockLifecycle.RescanKeeps` | modules/ingester/ingester.go:308-350 | a restart that remembers nothing re-establishes it from what is on disk |
| `BlockLifecycle.HeadGrows` | modules/ingester/tenantBlockManager.go:257-287 | flushing to the head, cutting it, and a cut that lists it as completing but leaves it head, keep it |
| `TenantBlocks.TenantBlockManager.Push` | modules/ingester/tenantBlockManager.go:188-218 | accepted exactly if the bytes fit the limit; then the snapshot is live, counted once and sized; everything else is unchanged |
| `TenantBlocks.TenantBlockManager.SnapshotsToCut` | modules/ingester/tenantBlockManager.go:496-515 | splits the live snapshots by the cut-off rule of the code without losing one; the cut ones in ID order |
| `TenantBlocks.TenantBlockManager.CutSnapshots` | modules/ingester/tenantBlockManager.go:228-253 | the ripe live snapshots move to the head block in ID order, the rest stays, the count is the number of live ones, nothing stored changes |
| `TenantBlocks.TenantBlockManager.CutBlockIfReady` | modules/ingester/tenantBlockManager.go:257-287 | cuts exactly if there is data and age, size or force asks for it; the head becomes the last completing block; nothing stored changes |
| `TenantBlocks.TenantBlockManager.CompleteBlock` | modules/ingester/tenantBlockManager.go:290-321 | the first completing block with the ID gets a local copy and stays completing; an error exactly if there is none |
| `TenantBlocks.TenantBlockManager.ClearCompletingBlock` | modules/ingester/tenantBlockManager.go:324-342 | removes the first completing block with the ID; rows are lost exactly if no local block holds them |
| `TenantBlocks.TenantBlockManager.HandleComplete` | modules/ingester/flush.go:269-316 | completing and then deleting the WAL turns the first completing block with the ID into a local block; nothing stored is lost or dropped |
| `TenantBlocks.TenantBlockManager.FlushBlock` | modules/ingester/tenantBlockManager.go:345-356 | the first unflushed local block with the ID becomes remote and is marked with the time; an error exactly if there is none |
| `TenantBlocks.TenantBlockManager.ClearFlushedBlocks` | modules/ingester/tenantBlockManager.go:359-383 | removes the first local block whose flush is older than the timeout, if any; all it held is remote |
| `TenantBlocks.TenantBlockManager.FindSnapshotByID` | modules/ingester/tenantBlockManager.go:385-442 | finds an accepted snapshot with its bytes as long as it is stored, in whichever place; it is missing only if remote or dropped; nothing else is found |
| `TenantBlocks.DataLengthAdds` | modules/ingester/tenantBlockManager.go:261-266 | the data length that decides over a cut is the sum of the rows' bytes |
| `TenantBlocks.InsertByIdSorts` | modules/ingester/tenantBlockManager.go:228-253 | inserting by ID keeps the list sorted and adds just that row |
| `TenantBlocks.FindInLocal` | modules/ingester/tenantBlockManager.go:431-440 | searching the local blocks in turn answers for all rows they hold |
| `FlushQueues.RootIsMax` | pkg/flushqueues/priority_queue.go:47-51 | the root of the heap has maximal priority |
| `FlushQueues.Up` | pkg/flushqueues/priority_queue.go:104-124 | sifting up restores the heap and permutes the operations |
| `FlushQueues.Down` | pkg/flushqueues/priority_queue.go:128-147 | sifting down restores the heap and permutes the operations |
| `FlushQueues.HeapPop` | pkg/flushqueues/priority_queue.go:128-147 | takes out one operation of maximal priority and leaves a heap of the others |
| `FlushQueues.PriorityQueue.Close` | pkg/flushqueues/priority_queue.go:85-90 | only marks the queue as closing: nothing queued is lost and it still accepts |
| `FlushQueues.PriorityQueue.DiscardAndClose` | pkg/flushqueues/priority_queue.go:93-100 | exactly what was queued is discarded |
| `FlushQueues.PriorityQueue.Enqueue` | pkg/flushqueues/priority_queue.go:104-124 | adds the operation exactly if the queue is not closed and the key is not queued; an error exactly if closed; the hit set stays the set of queued keys |
| `FlushQueues.PriorityQueue.Dequeue` | pkg/flushqueues/priority_queue.go:128-147 | an operation of maximal priority, delivered once; nothing exactly if the queue is empty, and then everything accepted has been delivered or discarded and the queue is closed |
| `FlushQueues.ExclusiveQueues.constructor` | pkg/flushqueues/exclusivequeues.go:35-46 | nothing is outstanding and no key is active |
| `FlushQueues.SlotsDiffer` | pkg/flushqueues/exclusivequeues.go:66-70 | as many accepted operations in a row as there are queues go to different queues |
| `FlushQueues.ExclusiveQueues.Enqueue` | pkg/flushqueues/exclusivequeues.go:49-57 | at most one outstanding operation per key: a key that is queued, running or awaiting retry is ignored without error, another one is added to the next queue in turn unless that is closed |
| `FlushQueues.ExclusiveQueues.Requeue` | pkg/flushqueues/exclusivequeues.go:66-70 | a retry replaces the running operation of its key and goes to the next queue in turn; the key stays exclusive |
| `FlushQueues.ExclusiveQueues.Clear` | pkg/flushqueues/exclusivequeues.go:73-75 | ends the operation and frees its key, no other |
| `FlushQueues.ExclusiveQueues.Dequeue` | pkg/flushqueues/exclusivequeues.go:61-63 | what was queued is now running: outstanding operations and active keys are unchanged |
| `FlushQueues.ExclusiveQueues.Stop` | pkg/flushqueues/exclusivequeues.go:89-95 | every queue is closing and nothing outstanding is lost |
| `FlushQueues.ExclusiveQueues.IsEmpty` | pkg/flushqueues/exclusivequeues.go:77-86 | empty only if nothing is outstanding, and always then unless a closed queue refused an operation |
| `BufferedReader.ReadsAreExact` | pkg/io/buffered.go:108-173 | in every interleaving of any number of calls a finished read returned exactly the underlying bytes |
| `BufferedReader.StepKeeps` | pkg/io/buffered.go:108-173 | every step between lock operations keeps the invariant: an unlocked buffer's contents are its window |
| `BufferedReader.OtherCallKept` | pkg/io/buffered.go:61-79 | a window that a call has found readable neither moves nor is half filled before that call copies from it, whatever another call does |
| `BufferedReader.NoDeadlock` | pkg/io/buffered.go:108-173 | as long as a call is unfinished some call can move on, not merely write into its buffer |
| `BufferedReader.EveryCallFinishes` | pkg/io/buffered.go:108-173 | every run has at most five such steps per call and can go on until all calls are finished |
| `BufferedReader.BufferKept` | pkg/io/buffered.go:108-173 | a buffer locked by one call is left alone by the steps of others, except for readers joining and leaving a read lock |
| `BufferedReader.CalculateBounds` | pkg/io/buffered.go:87-106 | the new window covers the read and stays inside the reader |
| `BufferedReader.LeastRecentlyUsed` | pkg/io/buffered.go:131-146 | the evicted buffer is one with the least recent use |
| `BufferedReader.UsedLater` | pkg/io/buffered.go:128-170 | over every run a buffer used later has a higher count than one not used since, so the evicted buffer is a least recently used one |
| `BufferedReader.ChoosePath` | pkg/io/buffered.go:122-165 | a call takes a buffer that has its bytes if there is one, else refills one with the least count; without buffers it reads directly |
| `BufferedReader.BoundsMeaning` | pkg/io/buffered.go:87-106 | the window is as wide as the buffers are, or as the read needs, and starts at the read unless that runs past the end |
| `Compaction.SameHashIff` | pkg/deepdb/compaction_block_selector.go:74-118 | two compactors give every block eligible to both the same ownership hash if and only if their active windows are at most one apart |
| `Compaction.DriftIsHarmless` | pkg/deepdb/compaction_block_selector.go:74-118 | so clocks that differ by at most one compaction window agree |
| `Compaction.Disagree` | pkg/deepdb/compaction_block_selector.go:74-118 | two windows apart there is a block on which they disagree |
| `Compaction.GroupFixesHash` | pkg/deepdb/compaction_block_selector.go:88-118 | blocks of one tenant with the same group string have the same hash |
| `Compaction.HashFixesGroup` | pkg/deepdb/compaction_block_selector.go:88-118 | and with the same hash, both active or both inactive, they are of one group |
| `Compaction.RecentFirst` | pkg/deepdb/compaction_block_selector.go:96-129 | more recent windows come first, among active blocks of one level and among inactive ones |
| `Compaction.SmallFirst` | pkg/deepdb/compaction_block_selector.go:100-129 | within a group blocks with fewer objects come first; outside the active window, within a level |
| `Compaction.ActiveFirst` | pkg/deepdb/compaction_block_selector.go:95-129 | active blocks come before inactive ones |
| `Compaction.Totals` | pkg/deepdb/compaction_block_selector.go:178-192 | the loops compute the objects and bytes of a stripe |
| `Compaction.TotalsAdd` | pkg/deepdb/compaction_block_selector.go:178-192 | these are sums over the blocks |
| `Compaction.TimeWindowBlockSelector.constructor` | pkg/deepdb/compaction_block_selector.go:65-132 | the entries are the eligible blocks, each as often as in the list, sorted by group and order |
| `Compaction.EligibleExactly` | pkg/deepdb/compaction_block_selector.go:78-118 | an entry is there exactly for a block of the list outside the cut-over window |
| `Compaction.EligibleDistinct` | pkg/deepdb/compaction_block_selector.go:78-118 | a list without repeated block IDs gives entries without repeated block IDs |
| `Compaction.InsertSorts` | pkg/deepdb/compaction_block_selector.go:121-129 | insertion keeps the order and adds just that entry |
| `Compaction.TimeWindowBlockSelector.LongestFrom` | pkg/deepdb/compaction_block_selector.go:142-154 | the longest stripe from a position: one kind, within all limits, not extendable to the right; none exactly if two blocks do not go together |
| `Compaction.TimeWindowBlockSelector.FirstStripe` | pkg/deepdb/compaction_block_selector.go:140-159 | the first position from which a stripe of at least two blocks starts |
| `Compaction.TimeWindowBlockSelector.BlocksToCompact` | pkg/deepdb/compaction_block_selector.go:134-176 | a maximal stripe of at least the minimum length, of one group, encoding and version and within the limits, a contiguous run of the list, and only what follows it is left; nothing only when the list is used up |
| `Compaction.TimeWindowBlockSelector.StripeOneHash` | pkg/deepdb/compaction_block_selector.go:134-176 | all blocks of a stripe have one ownership hash |
| `Compaction.Cycle` | pkg/deepdb/compactor.go:131-172 | calling the selector until it is exhausted terminates; the merged stripes are owned, maximal, within limits and pairwise disjoint runs; if the list has no block twice, no block is merged twice |
| `Compaction.CompactTenant` | pkg/deepdb/compactor.go:105-177 | from block list to merges: every merged block is an eligible, owned block of the list, every stripe is of one group, encoding and version and within the limits, and no block is merged twice |
| `Compaction.NoDoubleCompaction` | pkg/deepdb/compactor.go:146-159 | what two compactors merged, as CompactTenant returns it, has no block ID in common if their clocks are at most one window apart and no hash is owned by both |
| `Formatting.Hex16RoundTrip` | pkg/deepdb/compaction_block_selector.go:88-118 | the fixed-width hexadecimal form of the window age determines it |
| `Formatting.Hex16Less` | pkg/deepdb/compaction_block_selector.go:96-111 | padded figures that fit 16 digits sort as strings like the numbers do |
| `Formatting.DigitsRoundTrip` | pkg/deepdb/compaction_block_selector.go:88-118 | decimal and hexadecimal digits determine the number and contain no dash |
| `SearchSharding.SplitCompleteIff` | modules/frontend/searchsharding.go:390-443 | for every query: each of its seconds is searched by ingesters or backend if and only if a condition on the two boundaries holds; a query of a single second is never searched |
| `SearchSharding.RangesWithin` | modules/frontend/searchsharding.go:390-443 | what is issued to the ingesters and to the backend is exactly the query's part on their side of the boundary, unless that is a single second |
| `SearchSharding.ConfiguredSplitIsComplete` | modules/frontend/frontend.go:74-80 | the configuration check makes every split complete, also when the clock moves between the two computations |
| `SearchSharding.BlockMetas` | modules/frontend/searchsharding.go:325-337 | the sublist of blocks that overlap the range, in order |
| `SearchSharding.OverlappingKeeps` | modules/frontend/searchsharding.go:325-337 | it holds exactly the overlapping blocks, and none twice if the list has none twice |
| `SearchSharding.BackendRequests` | modules/frontend/searchsharding.go:341-384 | fails exactly if some non-empty block has zero bytes per page, otherwise returns the requests of all blocks |
| `SearchSharding.PagesOnceIff` | modules/frontend/searchsharding.go:341-384 | each page of a block is in exactly one of the block's requests if and only if the page count survives its 32 bits: it does not wrap, or what is left covers the block |
| `SearchSharding.EveryPageOnceIff` | modules/frontend/searchsharding.go:341-384 | the same over the requests of the whole search |
| `SearchSharding.SearchBackend` | modules/frontend/searchsharding.go:161-175 | from all blocks to requests: each page of each non-empty overlapping block is in exactly one request if and only if the block's page count fits; no block outside the query's part before the boundary is asked for; an error exactly if such a block has zero bytes per page |
| `SearchSharding.PagesSmall` | modules/frontend/searchsharding.go:348-356 | a sub-request stays within the target bytes by the per-page estimate or is a single page, and one more page would not fit; a target below 2^32 bytes makes every page count fit |
| `SearchSharding.PageEstimate` | modules/frontend/searchsharding.go:348-348 | the estimate is the block's size spread over its pages, rounded down |
| `SearchSharding.WrappedCount` | modules/frontend/searchsharding.go:358-365 | with 2^32 or more pages per request, a page is searched exactly if it lies below the wrapped count |
| `BlockBoundaries.CompareOrder` | pkg/deepdb/deepdb.go:551-552 | the byte comparison tells strings apart and is antisymmetric |
| `BlockBoundaries.PutUint64` | modules/frontend/snapshotbyidsharding.go:296-301 | writes the eight little-endian bytes in place and nothing else |
| `BlockBoundaries.CreateBlockBoundaries` | modules/frontend/snapshotbyidsharding.go:284-304 | fills in place one 16-byte row per boundary: the scaled first byte followed by zeros, all ones in the last; none for no shards |
| `BlockBoundaries.IncreasingIff` | modules/frontend/snapshotbyidsharding.go:284-304 | the boundaries strictly increase in byte order if and only if there are at most 255 ranges, which is what the shard limit of 256 allows |
| `BlockBoundaries.EvenWidths` | modules/frontend/snapshotbyidsharding.go:295-298 | all ranges have one width, counted in first bytes, but the last, which is wider by less than the number of ranges |
| `BlockBoundaries.BuildShardedRequests` | modules/frontend/snapshotbyidsharding.go:252-281 | request 0 goes to the ingesters, each other one to the range between two neighbouring boundaries; all are built for two or more shards |
| `BlockBoundaries.BlockTakenIff` | pkg/deepdb/deepdb.go:535-557 | for any number of shards a block is taken by some request if and only if the time filter lets it pass |
| `BlockBoundaries.TakersAre` | pkg/deepdb/deepdb.go:549-554 | for the allowed shard counts it is taken by exactly one request, or by two if and only if its ID equals an inner boundary |
| `JumpHash.Hash` | pkg/cache/memcached_client_selector.go:107-118 | terminates with the last bucket below n that the key's walk visits, a walk that does not depend on n; -1 for no buckets |
| `JumpHash.Grow` | pkg/cache/memcached_client_selector.go:107-118 | with more buckets a key stays or moves to a new bucket, never between old ones, and it stays exactly if its walk visits no new bucket |
| `JumpHash.BucketExists` | pkg/cache/memcached_client_selector.go:103-107 | for every positive number of buckets there is one in range |
| `JumpHash.ExactStep` | pkg/cache/memcached_client_selector.go:114-114 | the formula, on reals, always leads at least one bucket further |
| `JumpHash.ExactMeaning` | pkg/cache/memcached_client_selector.go:114-114 | the step is the quotient of the source rounded down |
| `JumpHash.KeyRoundTrip` | pkg/cache/memcached_client_selector.go:113-113 | every 64-bit key has its own successor: the generator can be run backwards |
| `JumpHash.PickServer` | pkg/cache/memcached_client_selector.go:122-133 | no server exactly if there is none, else the server at the key's bucket, the shortcut for one server included |
| `JumpHash.AddServer` | pkg/cache/memcached_client_selector.go:122-133 | adding a server that sorts last moves a key to it or not at all |
| `Memcached.FetchKeys` | pkg/cache/memcached.go:164-198 | the found keys, their stored bytes and the missed keys, each in key order; an error makes every key a miss |
| `Memcached.LookupPlaces` | pkg/cache/memcached.go:188-197 | each key is in exactly one list, at the place its order among the hits or misses gives it, with its stored bytes |
| `Memcached.CountIsBatches` | pkg/cache/memcached.go:222-225 | the expected number of results is the number of batches sent |
| `Memcached.BatchSizes` | pkg/cache/memcached.go:205-206 | every batch is full but the last, which has at least one key |
| `Memcached.RunPool` | pkg/cache/memcached.go:204-240 | in every interleaving of producer, workers, collector and quit, one of them can proceed until all answers are in, it terminates, and every answer sits at its batch's index |
| `Memcached.FetchKeysBatched` | pkg/cache/memcached.go:200-249 | the lists of the answers received in batch order; all batches unless the client quits |
| `Memcached.FetchAgrees` | pkg/cache/memcached.go:188-197 | the lists depend only on what the store holds of the keys asked for |
| `Memcached.BatchedIsUnbatched` | pkg/cache/memcached.go:200-249 | if each batch is answered with what one store holds of its own keys, the three lists are those of a single request to that store, for every batch size |
| `Memcached.BatchedPartitions` | pkg/cache/memcached.go:200-249 | whatever requests fail, found and missed together hold every key exactly as often as it was asked for |
| `Memcached.FetchAll` | pkg/cache/memcached.go:152-162 | unless the client quits, found and missed partition the keys, and if one store answers all requests the result is that of a single request, whatever the batch size |
| `SearchResults.NeverBroken` | pkg/search/results.go:58-143 | in every interleaving in which a worker is started only while the closing goroutine would still wait for it, or after Close: no channel is closed twice, nothing is sent on a closed channel, the wait group never goes negative |
| `SearchResults.CloseWorks` | pkg/search/results.go:106-113 | Close signals quit for good, and every worker then in a send gets out of it by at most the closing of the done channel and its own return |
| `SearchResults.CancelWorks` | pkg/search/results.go:66-67 | a cancelled context lets every sending worker out |
| `SearchResults.AddWorks` | pkg/search/results.go:58-72 | a result added while a consumer is there and Close was not called is delivered and reported as added, and nothing else changes |
| `SearchResults.QuitNeedsReason` | pkg/search/results.go:58-72 | AddResult gives a result up only after Close or cancellation; otherwise it ends with the hand-over |
| `SearchResults.DeliveryNeedsConsumer` | pkg/search/results.go:63-65 | results go to a consumer that is there |
| `SearchResults.StartedWorks` | pkg/search/results.go:127-136 | AllWorkersStarted sets the closing goroutine going, once |
| `SearchResults.DrainEnds` | pkg/search/results.go:131-135 | when all workers have finished it closes the results channel and a consumer that is still there ends with what it has |
| `SearchResults.WorkerCounts` | pkg/search/results.go:120-143 | a worker is counted from StartWorker to FinishWorker |
| `SearchResults.LateStartIff` | pkg/search/results.go:120-136 | starting a worker can lead to a panic if and only if the closing goroutine is past its wait and Close was not called |
| `SearchResults.OrderSuffices` | pkg/search/results.go:124-136 | starting workers before AllWorkersStarted, or while another worker is active, is therefore safe |
| `SearchResults.DrainedExactly` | pkg/search/results.go:58-143 | a consumer that ranges to the end has received from each worker, in its order, exactly the results whose AddResult reported success; all workers are finished, but for some that were started late after Close and add nothing |
| `SearchResults.EndedStays` | pkg/search/results.go:127-143 | from then on nothing is delivered or reported as added |
| `SearchResults.ClosedFrees` | pkg/search/results.go:106-113 | after Close no worker enters a blocking send, and one that is in it can return without anyone else |
| `SearchResults.SendingShrinks` | pkg/search/results.go:106-113 | so over every run after Close the set of workers in a send only shrinks |
| `SearchResults.NoDeadlock` | pkg/search/results.go:127-143 | with a consumer, or after Close or cancellation, workers and goroutines already there can take a step until the results channel is closed |
| `SearchResults.LateWorkerBreaks` | pkg/search/results.go:120-136 | the failing half: from every such state a run of at most two more steps ends in a send on a closed channel |
| `SearchResults.StepKeeps` | pkg/search/results.go:58-143 | every step of every participant keeps the invariant |
| `ClusterSeed.Seed.Merge` | pkg/usagestats/seed.go:40-67 | the local seed becomes the merged one; a change is reported exactly when it changed, and it is the offered seed; an error exactly for a foreign type; nil changes nothing |
| `ClusterSeed.MergeCommutesIff` | pkg/usagestats/seed.go:40-67 | two replicas that exchange seeds end up equal if and only if one instant is held in one form and a time and UID fix the seed |
| `ClusterSeed.GossipFindsOldest` | pkg/usagestats/seed.go:40-67 | after any gossip, relayed and repeated in any order, a replica holds the least of the seeds involved by time, then UID |
| `ClusterSeed.ReplicasAgreeIff` | pkg/usagestats/seed.go:40-67 | replicas that have seen the same seeds agree, for all gossip, if and only if the seeds are pairwise comparable in that sense |

## Left out

- Columns.ColumnIterator.Step: read errors, context cancellation and Close are not modelled; a page starts on a row boundary and levels are legal, which is what parquet-go is taken to guarantee.
- Columns.ColumnIterator.Next: consumer and background goroutine are one object whose background steps happen at every point where the consumer could be interrupted; the result pools, value cloning and makeResult's copying are memory reuse and are left out.
- Columns.ColumnIterator.constructor: a filter must not keep nulls unless it never skips (SafeGroups); PageNullsIff and ChunkNullsIff show that a filter with a single leaf needs this to skip exactly. For Or trees it is sufficient and not necessary: a tree may keep nulls and still never skip, as Or of an integer range around 0 and a generic predicate that accepts everything.
- Iterators.FanIterator.SeekTo: the seek level is at most the iterator's own; SeekExactIff shows that this is what an exact seek takes.
- Iterators.FanIterator.constructor: at least one (required) child for joins, since without one the loop at iters.go:629-689 never ends; children share no state; OtherEntries are not modelled; errors of children are left out.
- Striping.RepeatedFirstSuffices: for a column with an optional field above a repeated one only the failure is proved (ForkMisnumbered); that its row numbers still strictly increase is Scan.FullRises.
- Predicates.Predicate.KeepValue: regular expressions are uninterpreted functions of the text, floats are reals, the generic predicate is the one over integers; the counters of InstrumentedPredicate and the helper's mutex are left out.
- Predicates.Predicate.KeepColumnChunk: rejection speaks of non-null values, as bounds and dictionaries do; a RangeFn is required not to reject a range that holds an accepted point.
- BlockLifecycle.CrashSafe: a block has at most one flush operation at a time, as the queues' keys ensure; a block is given up only while serving; reading and rescanning the WAL does not fail; WAL, local and remote store are sets of snapshots per block, with the meta file written last.
- TenantBlocks.TenantBlockManager.Push: each ID is pushed once and 32-bit tokens of live IDs do not collide; ID validation, the per-tenant live limit and segment encoding are left out.
- TenantBlocks.TenantBlockManager.CutBlockIfReady: a failing resetHeadBlock is modelled in BlockLifecycle (CutFails) and not here, where blocks are values.
- TenantBlocks.TenantBlockManager.CutSnapshots: calls are atomic and WAL writes do not fail; sort.Slice is modelled as insertion by ID.
- TenantBlocks.TenantBlockManager.FindSnapshotByID: the queried ID's token is not that of another live snapshot; decoding errors are left out.
- FlushQueues.ExclusiveQueues.Enqueue: each call is one atomic step, although the source loads and stores the active key separately; the 32-bit index does not wrap.
- FlushQueues.PriorityQueue.Dequeue: waiting on the condition variable is a precondition; container/heap is modelled on a sequence.
- BufferedReader.ReadsAreExact: reads are in range and the underlying reader does not fail (a failed populate leaves the window marked readable); BufferedWriter and BufferedWriterWithQueue are left out.
- Compaction.TimeWindowBlockSelector.BlocksToCompact: sizes are unbounded, so 64-bit wrap-around of totals is not modelled; that no earlier pair was passed over is stated for a minimum of at most two input blocks, the default.
- Compaction.TimeWindowBlockSelector.constructor: times are whole seconds; sort.SliceStable is modelled as stable insertion.
- Compaction.RecentFirst: for ages that are not negative and fit 16 hexadecimal digits, as for the object counts of SmallFirst; levels are compared as strings.
- Compaction.NoDoubleCompaction: both compactors see the same metadata for a block ID.
- Compaction.Cycle: the tenant rotation, the time limit per tenant and the merge itself (pkg/deepdb/compactor.go:179-264) are left out; ownership is an arbitrary function of the hash.
- SearchSharding.SearchBackend: block IDs of a tenant's list are distinct; 64-bit sizes do not wrap.
- SearchSharding.SplitCompleteIff: times are whole seconds that fit the request's 32 bits. The request parser lets start = end = 0 pass besides start < end (pkg/api/http.go:228-231); for such a query nothing is searched, as the lemma says.
- BlockBoundaries.BlockTakenIff: includeCompactedBlock only adds an age test and is left out, and so is the hexadecimal form of the boundaries in the request.
- JumpHash.Hash: floating point is left out; the step is a parameter that must lead forward, proved for the formula on reals.
- JumpHash.PickServer: natural sorting and resolving of server names are left out.
- Memcached.RunPool: there is at least one worker, since with a batch size and none the source waits on its channels forever; workers serve one call at a time; GetMulti answers each batch once, with items or an error.
- SearchResults.NeverBroken: error and counter fields are left out; a worker calls FinishWorker once and sends only before it.
- ClusterSeed.Seed.Merge: the codec and the clone are left out; strings compare character by character.
- HTTP, gRPC, protobuf, configuration, metrics, tracing and logging carry no property of this kind.
- DeepQL, the overrides, the retry and limiter middleware, the generator and the object-store backends are not part of this model.
- The frontend's result limit is not claimed, since responses are not truncated to it.
