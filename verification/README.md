# A verified model of the lab systems: linearizability checker, MapReduce, Raft elections

This project models the algorithmic core of a Go code base of distributed-systems labs and proves
what it computes. To check it, use `dafny verify dfyconfig.toml`.

**The linearizability checker** (`src/porcupine`). `Linearizability` defines, without any search,
when a concurrent history is linearizable. `Checker.CheckSingle` is the source's loop: a doubly
linked list edited in place by lift and unlift, an undo stack, a bitset and a cache of (set, state)
pairs bucketed by hash. It is proved to answer exactly that definition, to terminate, and to hand
out longest partial linearizations. `Search` holds the invariant of the abstract search,
`LinkedEntries`, `Bitset` and `Cache` the three data structures and what they stand for,
`MakeEntries` and `Renumber` the two ways into the search, `Kv` and `Locality` the per-key
partition, `StoreLaw` what get, put and append mean, `Parallel` the aggregation of verdicts,
`CheckOperations` the whole pipeline.

**MapReduce** (`src/mr`). `Coordinator` is the coordinator's class, `Cluster` the cluster as a state
machine whose steps are the locked sections, file appends and file reads. `ExactlyOnce`,
`NothingLost`, `CountsOnce`, `EndToEnd`, `Scheduler` and `Progress` prove what holds over whole
runs, with the sequential program of `src/main/mrsequential.go` as the reference; `LateReport` is a
run in which a late report makes map output count twice.

**Raft** (`src/raft/raft.go`). `Raft` is one server, `RaftLog` what compaction keeps and what the
commit index means, `Election` a cluster with message loss, delay, repetition, reordering and
crashes, `ServerSteps` the proof that a server's locked sections are that cluster's steps. `TwoLeaders` builds, for every cluster of two servers or more, a run of the source's own
steps with two leaders in one term.

**labgob** (`src/labgob/labgob.go`). `Labgob` is the type walk with its persistent visited set.

Six properties one might expect do not hold of the source; each comes with a run or an input that
shows it and with the exact condition under which it does hold:

- A term can have two leaders, in every cluster of two or more: the election loop promotes without
  checking that the server is still in the election's term (`TwoLeaders.TwoLeadersInOneTerm`,
  `TwoLeaders.UniqueOnlyWhenAlone`). That check is exactly what makes a promoted server one with a
  majority in the term it leads (`Election.PromotedWithMajorityExactlyWhen`), and with it leaders are
  unique (`Election.UniqueLeaders`).
- Map output can count twice: CompleteTask lets a late report take a task from a live machine
  (`LateReport.LateReportDuplicates`). In every run it counts once, whenever MapDone is true, if and
  only if every listed worker has appended its own tasks once and, except for empty parts, nothing
  else (`CountsOnce.CountsOnceExactlyWhen`). That is so in all runs in which no report takes a task
  with output from another live machine (`ExactlyOnce.MapOutputExactlyOnce`), and a report keeps the
  invariant behind this if and only if it does not (`ExactlyOnce.ReportKeepsInvExactlyWhen`).
  Nothing is ever lost (`NothingLost.MapOutputAtLeastOnce`).
- checkParallel need not return: it does if and only if there is a partition or a timeout
  (`Parallel.ReturnsExactlyWhen`).
- After compaction the consistency check can index below the log and crash
  (`RaftLog.CompactionCanCrashTheCheck`, `RaftLog.CheckCrashes`).
- A leader that restarted with a compacted log can crash when it commits
  (`Raft.RestartedLeaderCrashes`); `Raft.Server.LeaderApply` states exactly when.
- A leader alone in its cluster is a majority and still never commits
  (`RaftLog.LonelyLeaderNeverCommits`, `RaftLog.CommitMeansMajority`).

Conventions. Operations and nodes are named by numbers; a model's equality on states is real
equality; sorting is any sorted permutation; `ihash` is any function to the naturals; JSON and gob
are lossless, except that worker numbers pass through bytes. Go's 64-bit words are numbers below
2^64 with bit operations defined on them. Clocks, timeouts and scheduling are nondeterministic steps.

## Model

| member | source | states |
|---|---|---|
| `Checker.CheckSingle` | src/porcupine/checker.go:179-253 | For every well-formed history the loop terminates; unless it was stopped by a set kill flag it answers true exactly when some legal, real-time-respecting order of all operations exists; every partial handed out replays, respects real time and contains its operation; after an unstopped false they are of maximum length and missing only where none exists; after true they are complete linearizations |
| `Checker.Iterate` | src/porcupine/checker.go:194-242 | One pass of the loop keeps the invariant on list, stack, bitset, cache and longest partials and makes (uncached configurations, stack depth, distance to the end) smaller; getting stuck means not linearizable and longest partials optimal |
| `Checker.LoopHead` | src/porcupine/checker.go:190-206 | At the loop head the bitset's size is the stack depth, and the links are the original order minus the lifted pairs, with 2(n - depth) nodes besides the sentinel |
| `Checker.Start` | src/porcupine/checker.go:180-189 | List, bitset, cache and longest partials establish the invariant |
| `Checker.Linearize` | src/porcupine/checker.go:201-207 | Linearizing a call whose configuration is new adds exactly that configuration to the cache and keeps the invariant with the cursor at the front |
| `Checker.Attempt` | src/porcupine/checker.go:198-210 | A call the model allows is linearized or skipped according to exact cache membership, with progress in either case |
| `Checker.OnCallEntry` | src/porcupine/checker.go:194-213 | The call branch keeps the invariant and makes progress |
| `Checker.OnReturnEntry` | src/porcupine/checker.go:218-241 | The return branch records the stack, undoes the last operation, keeps the cache and shortens the stack |
| `Checker.RecordLongest` | src/porcupine/checker.go:219-234 | Exactly the operations on the stack with nothing as long recorded get the whole stack |
| `Checker.Conclude` | src/porcupine/checker.go:244-252 | An empty list means the stack is a complete linearization, which is handed out for every operation |
| `Checker.LiftCall` | src/porcupine/checker.go:159-167 | Lifting turns the list of the remaining operations into the list without this one |
| `Checker.UnliftCall` | src/porcupine/checker.go:169-177 | Unlifting the operation lifted last restores every forward and backward link of every node |
| `Checker.Store` | src/porcupine/checker.go:201-205 | The cache gains exactly the new configuration, the current bitset gains the operation, and no stored bitset changes |
| `Checker.Undo` | src/porcupine/checker.go:235-241 | Bitset and list are those from before the operation was linearized, and the cursor is on the next remaining event |
| `Search.CachedOffStackHasNoCompletion` | src/porcupine/checker.go:190-243 | A cached configuration that is not on the stack cannot be completed |
| `Search.ExtensionIsCompletion` | src/porcupine/checker.go:190-243 | Conversely every prefix of a complete linearization has a completion, so pruning by the cache loses nothing |
| `Search.GiveUp` | src/porcupine/checker.go:215-217 | Giving up with an empty stack means that there is no linearization |
| `Search.AllVisited` | src/porcupine/checker.go:190-243 | When the root is exhausted the configuration of every non-empty partial linearization is in the cache |
| `Search.CallsBeforeFirstReturn` | src/porcupine/checker.go:194-216 | The calls before the first remaining return are exactly the remaining operations that no other remaining one precedes |
| `Search.Push` | src/porcupine/checker.go:197-207 | Going down keeps the search invariant |
| `Search.Skip` | src/porcupine/checker.go:208-213 | Passing over a call whose successor is cached or refused keeps the search invariant |
| `Search.Backtrack` | src/porcupine/checker.go:235-241 | Going back up keeps the search invariant |
| `Search.CacheBounded` | src/porcupine/checker.go:190-243 | The cache stays inside a finite set of configurations, the first component of the termination measure |
| `Search.ExhaustedIsOptimal` | src/porcupine/checker.go:185-186 | On exhaustion the recorded partials are of maximum length for each operation, and missing only where there is none |
| `Linearizability.CompletePartialIsLinearization` | src/porcupine/checker.go:244-252 | Prefix-closed partial orders of full length are exactly the linearizations |
| `LinkedEntries.Lift` | src/porcupine/checker.go:159-167 | The links after lift, also when call and return are adjacent or the return is last; the call always has a successor, so its unguarded dereference is safe |
| `LinkedEntries.Unlift` | src/porcupine/checker.go:169-177 | From the links after lift, unlift gives back exactly the links before, again without a nil dereference |
| `LinkedEntries.InOut` | src/porcupine/checker.go:159-177 | Putting a node back where it was taken out is the identity on all links |
| `LinkedEntries.OutShows` | src/porcupine/checker.go:159-167 | Taking a node out leaves the others in order, forwards and backwards |
| `LinkedEntries.LiveCount` | src/porcupine/checker.go:159-177 | After lifting some operations, two nodes remain for each other operation |
| `LinkedEntries.InsertBefore` | src/porcupine/checker.go:70-81 | What each link is afterwards, with and without a mark and a predecessor |
| `LinkedEntries.MakeLinkedEntries` | src/porcupine/checker.go:121-138 | A fresh list in the order of the entries, each call matched with its own return |
| `LinkedEntries.Length` | src/porcupine/checker.go:83-90 | The number of entries |
| `Cache.CacheContains` | src/porcupine/checker.go:145-152 | Exact membership of the (set, state) pair, whatever the hash collisions |
| `Cache.AddRefines` | src/porcupine/checker.go:201-202 | Adding an entry to its bucket adds exactly one pair to the set the cache stands for |
| `Cache.AddFrozen` | src/porcupine/checker.go:198-205 | Stored bitsets are still what they were when stored |
| `Bitset.NewBitset` | src/porcupine/bitset.go:10-17 | The empty set in just enough words |
| `Bitset.Clone` | src/porcupine/bitset.go:19-23 | A new array with the same words |
| `Bitset.Set` | src/porcupine/bitset.go:29-33 | The set gains exactly the position |
| `Bitset.Clear` | src/porcupine/bitset.go:35-39 | The set loses exactly the position |
| `Bitset.Get` | src/porcupine/bitset.go:41-44 | Membership |
| `Bitset.PopCount` | src/porcupine/bitset.go:46-52 | The size of the set |
| `Bitset.Hash` | src/porcupine/bitset.go:54-60 | Depends only on the words, hence, for one length, only on the set |
| `Bitset.HashBit` | src/porcupine/bitset.go:54-60 | Each bit of the hash is the parity of the words that have it, flipped by that bit of the set's size |
| `Bitset.Equals` | src/porcupine/bitset.go:62-72 | Equality of words, which for equal lengths is equality of sets |
| `Bitset.MembersInjective` | src/porcupine/bitset.go:7-8 | Word lists of one length that stand for the same set are equal |
| `MakeEntries.MakeEntries` | src/porcupine/checker.go:48-60 | Each operation's call and return exactly once, sorted by time with calls before returns |
| `MakeEntries.LessIsStrictWeak` | src/porcupine/checker.go:39-46 | The comparison is a strict weak order |
| `MakeEntries.OrderIsRealTime` | src/porcupine/checker.go:39-60 | After any such sort, a return stands before a call exactly when that operation returned before the other was called |
| `MakeEntries.SameHistory` | src/porcupine/checker.go:48-60 | The entries are well formed and linearizable exactly when the operations are |
| `Renumber.Renumber` | src/porcupine/checker.go:92-106 | Same events; new ids distinguish exactly what the old ones did and are 0, 1, 2, ... in order of first appearance |
| `Renumber.RenumberingUnique` | src/porcupine/checker.go:92-106 | That determines the result |
| `Renumber.ConvertEntries` | src/porcupine/checker.go:108-119 | Same events with positions as times |
| `Renumber.ConvertedWellFormed` | src/porcupine/checker.go:92-119 | Whatever ids a well-formed event list uses, the search gets well-formed entries |
| `Renumber.CheckEventHistory` | src/porcupine/checker.go:355-363 | One partition of events gets, unless stopped, the verdict whether the operations of the events are linearizable; its partials are legal, respect real time and are of maximum length, as in the search |
| `CheckOperations.CheckHistory` | src/porcupine/checker.go:365-373 | One partition of operations gets, unless stopped, the right verdict; its partials are partial linearizations of the operations themselves, complete after true and of maximum length after false, and all replay |
| `CheckOperations.Replay` | src/porcupine/visualization.go:62-70 | Replaying a partial never meets a refused step, and yields the states along it |
| `CheckOperations.KvVerdictIsRight` | src/porcupine/checker.go:365-373 | For key/value histories split by key, Ok means that some real-time order of the whole history makes every get right, and Illegal that none does, for every interleaving of searches that report as CheckHistory does |
| `StoreLaw.StoreLaw` | src/models/kv.go:40-54 | An order is legal for the store if and only if every get returned the last value put to its key before, followed by what was appended to it since; and then every key holds that value |
| `StoreLaw.LinearizableMeansGetsAreRight` | src/models/kv.go:35-54 | A history of the store is linearizable if and only if some real-time order of it makes every get right in this sense |
| `CheckOperations.SearchMayReport` | src/porcupine/checker.go:281-285 | What CheckHistory ensures of its result, with a kill flag that is never taken back, is what the aggregation expects of a search |
| `Kv.Partition` | src/models/kv.go:18-34 | One part per key that occurs, in key order, each holding that key's operations in order |
| `Kv.Group` | src/models/kv.go:19-23 | The operations grouped by key, in order |
| `Kv.OfKeySelects` | src/models/kv.go:20-23 | A key's part holds exactly the operations with that key, in the order of the history |
| `Kv.StringLessMeans` | src/models/kv.go:28 | Keys are ordered by the first position at which they differ |
| `Locality.Locality` | src/models/kv.go:18-54 | A history is linearizable against the key-to-string store if and only if each key's history is linearizable against the single-string step |
| `Locality.StoreRun` | src/models/kv.go:40-54 | An order is legal for the store exactly when it is legal for each key, with the same values |
| `Locality.Merge` | src/models/kv.go:18-34 | Two real-time-respecting orders of different keys interleave into one, each key running as before |
| `Parallel.VerdictIsRight` | src/porcupine/checker.go:274-353 | In every interleaving of results, kill and timeout: Ok means all partitions hold, Illegal that some does not, Unknown only with a timeout |
| `Parallel.VerdictIsExact` | src/porcupine/checker.go:342-351 | The verdict is Illegal if and only if a false result was received in the select loop; otherwise Unknown if and only if the timeout struck, and Ok if and only if it did not |
| `Parallel.LeavesExactlyWhen` | src/porcupine/checker.go:292-310 | The searches are told to stop exactly by a timeout, or by a false result when partials are not wanted; the select loop goes on exactly until then or until all results are in |
| `Parallel.NobodyRunsAtReturn` | src/porcupine/checker.go:312-325 | When partials are wanted, every search has reported before the verdict, so reading the partials does not race |
| `Parallel.MovesExactlyWhen` | src/porcupine/checker.go:292-318 | In a reachable state without a verdict some step is possible if and only if there is a partition or a timeout |
| `Parallel.RunsAreBounded` | src/porcupine/checker.go:274-353 | No run has more than two steps per partition and two more |
| `Parallel.ReturnsExactlyWhen` | src/porcupine/checker.go:274-353 | A run that cannot go on has returned a verdict if and only if there was a partition or a timeout |
| `Parallel.NothingToCheckNeverReturns` | src/porcupine/checker.go:291-310 | With no partition and no timeout nothing ever happens |
| `Coordinator.Coordinator.Register` | src/mr/coordinator.go:31-51 | A new live machine with the next number |
| `Coordinator.Coordinator.MapDone` | src/mr/coordinator.go:101-119 | True exactly when each map task was completed by a live machine; then those machines, once each |
| `Coordinator.Coordinator.AssignMap` | src/mr/coordinator.go:65-78 | The first map task no live machine has or has done, or none if there is none |
| `Coordinator.Coordinator.AssignReduce` | src/mr/coordinator.go:79-97 | The first reduce task that is idle or stranded at a dead machine; none only if every task is completed or with a live machine |
| `Coordinator.Coordinator.ReduceDone` | src/mr/coordinator.go:121-130 | True exactly when all reduce tasks are completed |
| `Coordinator.Coordinator.CompleteTask` | src/mr/coordinator.go:132-151 | The task becomes completed by the reporting machine, whoever had it |
| `Coordinator.Coordinator.Done` | src/mr/coordinator.go:173-181 | True exactly when all reduce tasks are completed |
| `Coordinator.Coordinator.CheckAliveMachine` | src/mr/coordinator.go:185-201 | Exactly the late machines are marked dead, and none comes back |
| `Cluster.ReduceWaitsForMap` | src/mr/coordinator.go:61-99 | In every run, no reduce task leaves idle before some MapDone check saw every map task completed by a live machine |
| `Cluster.CompletedForever` | src/mr/coordinator.go:121-151 | In every run, completed reduce tasks and Done never revert |
| `Cluster.DecodesExactly` | src/mr/worker.go:134 | Whatever the reused byte slice held before, the worker list survives exactly when all numbers are below 256 |
| `ExactlyOnce.MapOutputExactlyOnce` | src/mr/coordinator.go:64-78 | In every run in which no report takes a map task with output from another live machine, whenever MapDone is true the listed workers' files together hold each map task's output exactly once in every partition, and all exist; dead machines may ask, write, read and report otherwise |
| `CountsOnce.CountsOnceExactlyWhen` | src/mr/coordinator.go:101-119 | In every run whatsoever, whenever MapDone is true a partition holds each map task's output exactly once if and only if every listed worker has appended the non-empty parts of the tasks it is credited with once each, and no others |
| `CountsOnce.FilesAreAppends` | src/mr/worker.go:236-252 | In every run a file holds exactly the parts its worker appended, as often as it appended them |
| `ExactlyOnce.FailStopTakesNothing` | src/mr/coordinator.go:190-196 | Runs in which dead machines stop are such runs |
| `ExactlyOnce.ReportKeepsInvExactlyWhen` | src/mr/coordinator.go:138-141 | A map report keeps the invariant of StepInv if and only if it takes no task with output from another live machine |
| `ExactlyOnce.StepInv` | src/mr/worker.go:229-252 | Each step but a report that takes a task with output from another live machine keeps: a live worker's file for a partition holds the parts of exactly the tasks it completed or has already written there |
| `NothingLost.MapOutputAtLeastOnce` | src/mr/coordinator.go:101-119 | In every run whatsoever, whenever MapDone is true the listed files exist and hold each map task's output at least once in every partition |
| `NothingLost.StepLossFree` | src/mr/worker.go:229-252 | Every step keeps: a worker's file holds at least the parts of the tasks it is credited with |
| `LateReport.LateReportDuplicates` | src/mr/coordinator.go:132-146 | A run in which one such report leads to a partition read with a pair twice |
| `EndToEnd.Sequential` | src/main/mrsequential.go:39-86 | One line per key of the whole map output, holding the reduction of its values |
| `EndToEnd.SameAsSequential` | src/mr/worker.go:159-213 | In every run without deaths in which the workers listed to reducers have numbers below 256, once Done holds the output lines of all partitions are, as a multiset, those of the sequential program, and no worker has crashed |
| `Pairs.GroupReduce` | src/mr/worker.go:193-209 | On a sorted list, one line per key with the reduction of all its values, in increasing order of the keys |
| `Pairs.RunOf` | src/mr/worker.go:199-202 | The values of one run of equal keys |
| `Pairs.PartitionPairs` | src/mr/worker.go:229-234 | Partition r holds exactly the pairs whose key hashes to r, in order |
| `Pairs.PartSelects` | src/mr/worker.go:232-234 | Those pairs by position: each pair goes to the one partition of its hash, and they stand there as in the map output |
| `Pairs.ValuesSelect` | src/mr/worker.go:199-202 | The values of a key are those of the pairs with that key, in order |
| `Pairs.PartitionsReduce` | src/mr/worker.go:229-253 | Reducing each hash partition and putting the lines together is a reduction of everything |
| `Pairs.ReductionUnique` | src/main/mrsequential.go:70-86 | Two reductions of the same pairs are the same multiset of lines |
| `Pairs.ReductionPermuted` | src/mr/worker.go:188-209 | For an order-insensitive reducer the order of the pairs does not matter |
| `Scheduler.WorkIsBounded` | src/mr/coordinator.go:61-99 | Without deaths, hand-outs and completions so far plus the remaining potential are always 2(M+R) |
| `Scheduler.HandedOutOnce` | src/mr/coordinator.go:65-78 | Without deaths no map task is handed out twice |
| `Progress.CanFinish` | src/mr/worker.go:54-77 | From every state that runs keep, with a live machine, tasks lost with dead machines are handed out again and every reduce task can be completed |
| `Progress.JobCanFinish` | src/mr/coordinator.go:61-99 | From every state of a run, whatever died, in which some live machine can help and live owners of map tasks have numbers that fit a byte, the job can be finished |
| `Progress.OneLiveMachineSuffices` | src/mr/coordinator.go:61-99 | With at most 256 machines, one live machine is enough for that |
| `Progress.CalmJobCanFinish` | src/mr/coordinator.go:61-99 | Without deaths, any worker is enough, if the owners of map tasks have numbers that fit a byte |
| `Progress.StepSound` | src/mr/worker.go:159-186 | Every step, deaths and late reports included, keeps: what a worker was told to read is there, and a live machine works on the task it has |
| `Raft.Server.RequestVote` | src/raft/raft.go:345-379 | A newer term is taken over, with a fall back to follower, whether or not the vote is granted; a vote is recorded exactly when granted; the old term is reported; whatever changed is on disk before the lock is released |
| `Raft.Server.CheckState` | src/raft/raft.go:722-736 | A follower whose time is up becomes a candidate |
| `Raft.Server.StartElection` | src/raft/raft.go:603-632 | A candidate enters the next term with its own vote on disk and asks with its last entry; anyone else does nothing |
| `Raft.Server.FinishElection` | src/raft/raft.go:700-720 | A candidate with a majority of votes leads, with fresh replication indices; nothing else is looked at |
| `Raft.Server.Observe` | src/raft/raft.go:672-677 | Only a newer term is taken over, on disk, with a fall back to follower |
| `Raft.Server.HearLeader` | src/raft/raft.go:474-486 | A leader of an old term is ignored; otherwise its term is taken over, on disk, and the server follows |
| `Raft.Server.Restart` | src/raft/raft.go:1000-1016 | After a crash the memory is what the disk holds and the volatile state is reset |
| `Raft.Server.Start` | src/raft/raft.go:542-570 | Only a leader that is not killed appends, at the next index |
| `Raft.Server.Snapshot` | src/raft/raft.go:248-265 | The state is the compacted one, on disk; an index beyond the log crashes |
| `Raft.Server.CondInstallSnapshot` | src/raft/raft.go:206-240 | Installs exactly when the snapshot is ahead of commit and of the last snapshot |
| `Raft.Server.IsMatchPrevLog` | src/raft/raft.go:441-464 | The loop computes the consistency answer, including the out-of-range crash |
| `Raft.Server.RecordMatch` | src/raft/raft.go:971-975 | A successful reply sets the match index to what was sent and the next index past the log |
| `Raft.Server.LeaderApply` | src/raft/raft.go:891-931 | The commit index becomes the greatest index that enough servers match; the entries up to it are delivered in order; it crashes exactly when it must deliver an entry that compaction dropped, which needs a restart if only applied entries are compacted |
| `Raft.RestartedLeaderCrashes` | src/raft/raft.go:918-928 | A leader commits, compacts, restarts, is elected again, gets a new command and crashes when it commits it |
| `RaftLog.LogStaysOk` | src/raft/raft.go:226-240 | In every reachable state, also after AppendEntries took entries or only wrote them to the shared array, the log is non-empty and its first term is the snapshot's |
| `RaftLog.OverwrittenAt` | src/raft/raft.go:500 | When entries are only written to the shared array, the log keeps its length and changes exactly where they overlap it |
| `RaftLog.CompactKeeps` | src/raft/raft.go:251-262 | A snapshot within the log keeps exactly the entries from its index on |
| `RaftLog.CompactTwice` | src/raft/raft.go:251-262 | Compacting twice is compacting once at the later index |
| `RaftLog.SnapshotsAreInvisible` | src/raft/raft.go:248-265 | However snapshots are interleaved with vote requests, elections, terms and new commands, every vote decision, election request and index handed out is the same as without them |
| `RaftLog.CheckCrashes` | src/raft/raft.go:456-462 | The consistency check crashes if and only if the terms differ, all entries left up to there share one term and the snapshot is past index one |
| `RaftLog.CheckAnswers` | src/raft/raft.go:441-464 | Otherwise it accepts exactly what the log or the snapshot covers, returning that position or the snapshot's; a refusal beyond the log proposes the log's end, any other the last position before with another term, or zero |
| `RaftLog.CheckSurvivesCompaction` | src/raft/raft.go:441-464 | Above the snapshot the answer is unchanged by compaction if and only if compaction does not create that crash |
| `RaftLog.CompactionCanCrashTheCheck` | src/raft/raft.go:458-460 | Every log of one term that a follower takes and then compacts past the first index: the check answers before and crashes after |
| `RaftLog.CommitMeansMajority` | src/raft/raft.go:898-916 | The leader's test is "the recorded match indices of a majority reach it, counting the leader" if and only if the cluster has more than one server |
| `RaftLog.EarlierIsReplicated` | src/raft/raft.go:898-916 | Everything up to an index that passes the test passes it |
| `RaftLog.LonelyLeaderNeverCommits` | src/raft/raft.go:899-911 | In a cluster of one the majority is there and the test never succeeds |
| `Election.GrantedExactlyWhen` | src/raft/raft.go:354-387 | A vote is granted if and only if the term is not old, no vote was cast in it, and the candidate's log is up to date (section 5.4.1 of the extended Raft paper) |
| `Election.RequestBindsForever` | src/raft/raft.go:366-378 | Whoever receives a vote request, granted or not, is from then on in its term or a later one, across crashes, and never again leads an earlier term |
| `Election.OneVotePerTerm` | src/raft/raft.go:345-379 | Over whole runs with crashes, the votes a server holds at any two moments for one term are the same; its voted term never exceeds its term, and disk and memory agree |
| `Election.GrantsAreUnique` | src/raft/raft.go:345-379 | Over whole runs, no server grants its vote for one term to two candidates |
| `Election.CandidatesVoteForThemselves` | src/raft/raft.go:609-612 | A server never grants its vote in a term in which it stands |
| `Election.OneWinnerPerTerm` | src/raft/raft.go:633-690 | For every cluster size and run, two tallies of one term that reach total/2 + 1, at whatever moments, are of one candidate |
| `Election.TallyBounded` | src/raft/raft.go:634-670 | A tally is at most the number of servers whose vote in that term is for that candidate |
| `Election.StepInv` | src/raft/raft.go:595-709 | Every step keeps unique votes, disk and memory in agreement, and honest tallies |
| `ServerSteps.AnswerVote` | src/raft/raft.go:345-379 | Handling a vote request on a server is the cluster's receive step, and the reply is the one sent |
| `ServerSteps.Stand` | src/raft/raft.go:603-632 | Starting an election is the cluster's step, and the request is the one sent |
| `ServerSteps.HandleReply` | src/raft/raft.go:661-679 | Handling a reply, counted or with a newer term, is the cluster's step |
| `ServerSteps.EndElection` | src/raft/raft.go:692-707 | The end of the wait is a promotion exactly for a candidate with a majority, and otherwise gives up |
| `ServerSteps.TimeOut` | src/raft/raft.go:722-731 | A timeout is the cluster's step |
| `ServerSteps.Obey` | src/raft/raft.go:474-486 | Hearing a leader of a term that is not old is the cluster's step, and otherwise nothing happens |
| `ServerSteps.CrashAndRestart` | src/raft/raft.go:1000-1016 | A crash and restart is the cluster's step |
| `Election.UniqueLeaders` | src/raft/raft.go:700-705 | If every promotion happens in the election's term, no term ever has two leaders |
| `Election.PromotedWithMajorityExactlyWhen` | src/raft/raft.go:700-705 | In every run, a promoted server has a majority of votes in the term it is going to lead if and only if that is the term of its election |
| `TwoLeaders.TwoLeadersInOneTerm` | src/raft/raft.go:700-705 | For every cluster of two servers or more, a run with two leaders of one term |
| `TwoLeaders.UniqueOnlyWhenAlone` | src/raft/raft.go:700-705 | Leaders are unique in all runs if and only if the cluster has fewer than two servers |
| `Labgob.Checker.CheckType` | src/labgob/labgob.go:72-113 | Terminates on cyclic graphs; adds only types reachable from the argument, closed under looking inside, and counts exactly their lower-case fields |
| `Labgob.Checker.CheckValue` | src/labgob/labgob.go:68-113 | Between calls the checked types are the least set that holds all arguments so far and, of each of its types, all field types, elements and keys; the errors are the lower-case fields of its structs, each counted once |
| `Labgob.ReachIsLeast` | src/labgob/labgob.go:87-112 | What is reachable is the least set closed, kind by kind, under looking inside |
| `Labgob.TotalCounts` | src/labgob/labgob.go:89-99 | The error total is the number of pairs of a struct and a lower-case field of it |
| `Labgob.WalkReaches` | src/labgob/labgob.go:76-113 | A walk from t extends the set reachable from the arguments to the one reachable from the arguments and t |

## Left out

- Malformed histories: missing returns, ids used twice, returns before calls.
- checkParallel is a state machine over its goroutines and channel, not a method; turning `longest` into a set of slices is not modelled.
- `Kv.Partition` on inputs of another type, the Describe functions, client ids, and the HTML and JavaScript of the visualizer.
- `MakeEntries.MakeEntries`: the sort is an insertion sort standing for any sort; only "sorted permutation" is used of it.
- `EndToEnd.SameAsSequential`: listed workers have numbers below 256, because larger ones do not survive the byte list; `Cluster.DecodesExactly` is the exact condition on a list.
- `Progress.JobCanFinish`: says that the job can be finished if no more machines die, not that a scheduler will do so.
- `ExactlyOnce.MapOutputExactlyOnce`: speaks of the moment MapDone is true; a reducer that reads later, while a task of a dead machine is executed again, is not covered.
- `Coordinator.Coordinator.AssignReduce`: the separate ReduceDone check before the locked section is merged with it; in both, all tasks completed means no task.
- Intermediate files left over from an earlier job, failing file systems, heartbeats, sockets and RPC failures.
- `EndToEnd.Sequential`: the printed format of a line; lines are (key, output) pairs.
- Raft log replication, follower apply and state machine safety: AppendEntries appears only with its term section and with what it does to the log, because the source can acknowledge entries that it does not take.
- `Raft.Server.LeaderApply`: sending on the apply channel is a returned list.
- `Raft.Server.Snapshot`: the goroutine around it.
- `Election.OneWinnerPerTerm`: goroutines of a killed server instance that keep running inside one process.
- Timers and randomised timeouts: any server may time out, or abandon an election, at any moment.
- `Labgob.Checker.CheckValue`: the warnings of checkDefault, which add to the same counter, and nil values.
- `src/labrpc`, gob and JSON encodings, FNV hashing, and the kvraft, shardctrler and shardkv stubs.
