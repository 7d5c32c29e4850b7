# Verified models of Let-s-Go

A Dafny model of four parts of the repository, with proofs about them.

- **Porcupine**, the linearizability checker of MIT6.824. The specification is a permutation of
  the operations that respects real time and that the model accepts (`Linearizability.dfy`).
  `CheckSingle.dfy` is the search as the code runs it: a doubly linked list that is rewired in
  place, a stack, a bitset in 64-bit chunks and a hash-bucketed cache; `SearchRun.dfy` has its
  runs as chains of iterations. Around it are the entry lists, the events, the parallel collector,
  the key/value model with its locality theorem, and the replay of the visualizer.
- **MapReduce**: the dataflow of workers against the sequential program, the master as an object
  (`Scheduler.dfy`) and as a state machine over every interleaving (`MasterRuns.dfy`), and the
  whole job with what the workers write to disk (`Job.dfy`).
- **Gee**: the routing trie as values and as nodes updated in place, the router, its parameters,
  and the dispatch of a handler chain.
- **GeeRPC**: the client's table of pending calls and the server's handler/timer race, each as a
  state machine over any number of calls and any interleaving, with what has become of a call or
  a request determined from the events alone (`RpcClientEvents.dfy`, `RpcServer.RightAnswer`);
  the client's table also as an object.

Two hypotheses on runs of the master occur below. H1: no completion is accepted while the
result of another one waits to be processed. H2: no completion is accepted while a requeued copy
of its task waits in the queue. What goes wrong without them, and exactly when, is stated for
every run: files that are missing (`MasterLimits.dfy`), files that are listed twice
(`MasterListings.dfy`) and critical sections that never end (`MasterStuck.dfy`).

Findings that differ from what comments or names in the code suggest:

- A history with no operations has no partitions, and `checkParallel` then never returns unless
  there is a timeout (`ParallelProgress.AnswersExactly`, `CheckOperations.EmptyHistoryHangs`).
- The sort of the entries compares times only, so a return and a call with the same timestamp may
  be ordered either way, and `Illegal` may then be wrong (`CheckOperations.TieExample`);
  `CheckOperations.PossibleExactly` says for which histories.
- A master without input files or without reduce tasks never gets to Exit
  (`MasterProgress.FinishesExactly`).
- A registration that meets a wild node merges into it, and lookups may then return a pattern
  that does not match, or miss one that does (`RouteExamples`); `RouteProbes.ExactIff` says for
  which tables this does not happen.
- `terminateCalls` has no caller in the repository, so calls that are pending when the receive
  loop ends are not delivered (`RpcClient.LeftBehind`, `RpcClient.HangingRun`).

Parameters of the model: `kill` for the loads of the kill flag, `ihash` for the hash of a key,
`isLate` for the clock, the map and reduce functions, the contents of the disk, the scripts of
handlers, and every schedule.

## Model

| member | source | states |
|---|---|---|
| `CheckSingle.CheckSingle` | MIT6.824/src/porcupine/checker.go:174-248 | An unkilled search returns true if and only if the history of the entry list has a linearization; unkilled with partials on, `longest[i]` is nil exactly when no legal prefix has operation i and is a longest one otherwise. The run is a chain of iterations on (stack, cursor, cache, longest) with the kill flag down at each; killed at load n, it reports what a chain of exactly n iterations has recorded |
| `CheckSingle.Searcher.constructor` | MIT6.824/src/porcupine/checker.go:175-184 | The search starts with the full list, an empty stack, cache and bitset, nothing recorded, and its invariant holds |
| `CheckSingle.Searcher.TryCall` | MIT6.824/src/porcupine/checker.go:190-208 | One iteration on a call: pushed exactly if the model accepts it and no cached configuration has the same set and an equal state, else passed over; keeps the invariant of the whole search and makes the rank smaller |
| `CheckSingle.Searcher.Remember` | MIT6.824/src/porcupine/checker.go:196-197 | The cache then stands for exactly one configuration more |
| `CheckSingle.Searcher.Push` | MIT6.824/src/porcupine/checker.go:196-202 | Pushing a call caches the new configuration, lifts its two entries and keeps the invariant; the rank goes down |
| `CheckSingle.Searcher.Backtrack` | MIT6.824/src/porcupine/checker.go:213-236 | Backtracking records the prefixes, restores state, bitset and every link, moves on behind the call, and keeps the invariant; the rank goes down |
| `CheckSingle.Searcher.Fails` | MIT6.824/src/porcupine/checker.go:210-212 | Giving up with an empty stack on a return entry means that no linearization exists |
| `CheckSingle.Searcher.Succeed` | MIT6.824/src/porcupine/checker.go:239-247 | An empty list means that the stack is a linearization, which is then given to every operation as its longest prefix |
| `CheckSingle.UpdateLongest` | MIT6.824/src/porcupine/checker.go:214-229 | The stack replaces exactly the entries of stacked operations that have none or a shorter prefix |
| `SearchRun.ChainUnique` | MIT6.824/src/porcupine/checker.go:186-238 | The number of iterations decides where a run is and what it has recorded |
| `SearchRun.RecordedExactly` | MIT6.824/src/porcupine/checker.go:213-229 | At every point of a run with partials on, `longest[i]` is the first of the longest stacks with i that the run has backtracked from, and nil if there was none |
| `SearchRun.PoppedCovered` | MIT6.824/src/porcupine/checker.go:213-229 | Every operation on a stack that was backtracked from has a prefix at least as long |
| `SearchRun.NothingRecorded` | MIT6.824/src/porcupine/checker.go:213-229 | With partials off nothing is ever recorded |
| `CheckSingle.TakeOut` | MIT6.824/src/porcupine/checker.go:200-201 | Bitset and links after the operation on the cursor is taken out |
| `CheckSingle.PutBack` | MIT6.824/src/porcupine/checker.go:231-235 | Bitset and links after the operation on top of the stack is put back |
| `Search.CacheHitExplored` | MIT6.824/src/porcupine/checker.go:192-205 | Pruning loses nothing: a cached configuration with one operation more than the stack is not on the stack, so everything below it has been searched |
| `Search.SearchSkip` | MIT6.824/src/porcupine/checker.go:203-208 | Moving past a call that the model refuses, or that leads nowhere new, keeps the search invariant |
| `Search.SearchPush` | MIT6.824/src/porcupine/checker.go:196-202 | Taking a call keeps the search invariant |
| `Search.ExhaustedIsExplored` | MIT6.824/src/porcupine/checker.go:209-236 | With the cursor on a return, no operation after it can come next, so the configuration on the stack is fully searched |
| `Search.SearchPop` | MIT6.824/src/porcupine/checker.go:213-236 | Backtracking keeps the search invariant, with the longest prefixes updated |
| `Search.SearchFails` | MIT6.824/src/porcupine/checker.go:210-212 | An exhausted search proves that there is no linearization and that the recorded prefixes are longest |
| `Search.SearchSucceeds` | MIT6.824/src/porcupine/checker.go:239-247 | A stack with every operation is a linearization |
| `Search.ExploredGivesLongest` | MIT6.824/src/porcupine/checker.go:180-181 | After a full search the recorded prefixes are the longest legal ones in spite of pruning |
| `Linearizability.LinearizableBySteps` | MIT6.824/src/porcupine/checker.go:174-248 | The definition by permutations and the one by ready operations, one at a time, agree |
| `Linearizability.EqualStatesSameFuture` | MIT6.824/src/porcupine/checker.go:140-147 | States that Equal identifies accept the same continuations |
| `Termination.SkipProgress` | MIT6.824/src/porcupine/checker.go:203-208 | Moving on makes the rank smaller |
| `Termination.PushProgress` | MIT6.824/src/porcupine/checker.go:196-202 | Pushing makes the rank smaller |
| `Termination.PopProgress` | MIT6.824/src/porcupine/checker.go:230-236 | Backtracking makes the rank smaller |
| `Entries.HistoryUnique` | MIT6.824/src/porcupine/checker.go:116-133 | A well-formed entry list stands for exactly one history |
| `LinkedEntries.Lift` | MIT6.824/src/porcupine/checker.go:154-162 | The links become those of the list without the two entries, also when they are neighbours or the return is last |
| `LinkedEntries.Unlift` | MIT6.824/src/porcupine/checker.go:164-172 | The links become those from before the lift |
| `LinkedEntries.RemovedLinked` | MIT6.824/src/porcupine/checker.go:154-162 | Taking one entry out of a linked list leaves a linked list of the others |
| `LinkedEntries.RestoredRemoved` | MIT6.824/src/porcupine/checker.go:164-172 | Putting it back from its own stale links restores every link |
| `EntryList.InsertBefore` | MIT6.824/src/porcupine/checker.go:65-76 | The new entry sits between the mark and what was before it |
| `EntryList.Length` | MIT6.824/src/porcupine/checker.go:78-85 | Counts the entries |
| `EntryList.MakeLinkedEntries` | MIT6.824/src/porcupine/checker.go:116-133 | Builds one node per entry, in order, each call with its own return as match |
| `EntryList.BuildList` | MIT6.824/src/porcupine/checker.go:175-184 | The list with its head entry mirrors the history, and n is the number of operations |
| `EntryList.LiftOp` | MIT6.824/src/porcupine/checker.go:201 | Lifting an operation: from the links of the stack to those of the longer stack |
| `EntryList.UnliftOp` | MIT6.824/src/porcupine/checker.go:235 | Unlifting it goes back exactly |
| `Cache.CacheContains` | MIT6.824/src/porcupine/checker.go:140-147 | True if and only if some configuration inserted so far has the same set and an equal state, whatever the hash collisions |
| `Cache.InsertConfigs` | MIT6.824/src/porcupine/checker.go:196-197 | An insertion adds that configuration and nothing else |
| `Bitset.NewBitset` | MIT6.824/src/porcupine/bitset.go:10-17 | Enough chunks and no more, and the empty set |
| `Bitset.Clone` | MIT6.824/src/porcupine/bitset.go:19-23 | A fresh copy |
| `Bitset.Set` | MIT6.824/src/porcupine/bitset.go:29-33 | Adds the number to the set |
| `Bitset.Clear` | MIT6.824/src/porcupine/bitset.go:35-39 | Takes it out |
| `Bitset.Get` | MIT6.824/src/porcupine/bitset.go:41-44 | Membership |
| `Bitset.Popcnt` | MIT6.824/src/porcupine/bitset.go:46-52 | The size of the set |
| `Bitset.Hash` | MIT6.824/src/porcupine/bitset.go:54-60 | The size xor all chunks, a function of the contents |
| `Bitset.HashBit` | MIT6.824/src/porcupine/bitset.go:54-60 | Bit k of the hash is the parity of bit k of the size together with the members that are k modulo 64 |
| `Bitset.EqualSetsHashEqually` | MIT6.824/src/porcupine/bitset.go:54-60 | Equal sets of the same length hash equally |
| `Bitset.Equals` | MIT6.824/src/porcupine/bitset.go:62-72 | Equal chunks, which for equal lengths means equal sets |
| `Bitset.ChunkUpdate` | MIT6.824/src/porcupine/bitset.go:25-39 | Setting or clearing one bit of one chunk adds or removes exactly one number |
| `Bitset.MembersInjective` | MIT6.824/src/porcupine/bitset.go:62-72 | Bitsets of one length are equal exactly when their sets are |
| `MakeEntries.MakeEntries` | MIT6.824/src/porcupine/checker.go:43-55 | Some sort by time of the calls and returns of all operations; ties fall in any order |
| `MakeEntries.SortedDescribes` | MIT6.824/src/porcupine/checker.go:43-55 | If every operation returns after its call, any such list is well formed |
| `MakeEntries.SortsBetween` | MIT6.824/src/porcupine/checker.go:43-55 | Whatever the sort does with ties: linearizable with ties made strict implies that the entry list is, which implies that the history is |
| `MakeEntries.SortsExactly` | MIT6.824/src/porcupine/checker.go:39-55 | The entry lists of all sorts are linearizable if and only if the history with ties made strict is, that of some sort if and only if the history is |
| `MakeEntries.StrictWithoutTies` | MIT6.824/src/porcupine/checker.go:39-55 | Without ties the two histories agree |
| `MakeEntries.PrecedenceKeptIffNoTies` | MIT6.824/src/porcupine/checker.go:39-55 | All sorts keep the precedence of the timestamps if and only if there are no such ties |
| `MakeEntries.TieBroken` | MIT6.824/src/porcupine/checker.go:39-55 | For any tie there is a sort that turns it into precedence |
| `Events.Renumber` | MIT6.824/src/porcupine/checker.go:87-101 | Ids become 0, 1, ... in the order of their first occurrence; kinds and values stay |
| `Events.NumbersDiffer` | MIT6.824/src/porcupine/checker.go:87-101 | Different ids get different numbers, below the number of ids |
| `Events.NumberUsed` | MIT6.824/src/porcupine/checker.go:87-101 | Every number below is given to some id |
| `Events.ConvertEntries` | MIT6.824/src/porcupine/checker.go:103-114 | One entry per event, with its position as time |
| `Events.BalancedWellFormed` | MIT6.824/src/porcupine/checker.go:87-114 | If each id is called once and then returns once, the entry list is well formed and stands for the history of the events |
| `CheckEvents.PrepareEvents` | MIT6.824/src/porcupine/checker.go:350-358 | One converted list per partition |
| `CheckEvents.EventsVerdict` | MIT6.824/src/porcupine/checker.go:350-358 | For balanced events: ok if and only if there is a partition and all histories are linearizable, illegal if and only if one is not, unknown if and only if there is a timeout |
| `CheckParallel.VerdictCorrect` | MIT6.824/src/porcupine/checker.go:269-348 | In every schedule: illegal means that some partition is not linearizable, ok that all are, unknown only after a timeout; only searches that were not killed count |
| `CheckParallel.RunInv` | MIT6.824/src/porcupine/checker.go:269-348 | What every interleaving of workers, results, timeout and draining keeps |
| `CheckParallel.PartialsReplay` | MIT6.824/src/porcupine/checker.go:306-336 | All workers have finished when the prefixes are read, and each prefix, also of a killed search, is duplicate-free and legal |
| `CheckParallel.KilledPartials` | MIT6.824/src/porcupine/checker.go:186-188 | What a killed worker reports, in every schedule: for each operation the first of the longest stacks with it that its search had backtracked from |
| `CheckParallel.KilledExactly` | MIT6.824/src/porcupine/checker.go:287-305 | In every schedule the kill flag is up if and only if the time is up or, with no partials wanted, a counted search has failed; the time is up if and only if the timeout was taken |
| `CheckParallel.VerdictExactly` | MIT6.824/src/porcupine/checker.go:337-346 | Illegal if and only if a counted search has failed, also when the time is up afterwards; unknown if and only if the time is up and none has |
| `CheckParallel.StepsRunOut` | MIT6.824/src/porcupine/checker.go:287-313 | Every step makes a measure smaller, so every schedule ends |
| `ParallelProgress.ReportExists` | MIT6.824/src/porcupine/checker.go:174-248 | Whatever the history, there is a result that an unkilled search may return |
| `ParallelProgress.NextExists` | MIT6.824/src/porcupine/checker.go:287-313 | With a partition or a timeout there is always a next step, with a partition one other than the timeout |
| `ParallelProgress.RunToEnd` | MIT6.824/src/porcupine/checker.go:269-348 | Every schedule can be completed |
| `ParallelProgress.AnswersExactly` | MIT6.824/src/porcupine/checker.go:269-348 | Which answers a call can give: unknown if and only if there is a timeout; with a partition, ok if and only if all are linearizable and illegal if and only if one is not; none at all if and only if there is neither a partition nor a timeout |
| `CheckParallel.NoPartitions` | MIT6.824/src/porcupine/checker.go:287-305 | With none, only a timeout ends the call, and the verdict is unknown |
| `CheckOperations.Prepare` | MIT6.824/src/porcupine/checker.go:360-368 | The partitions of a store history, as sorted entry lists |
| `CheckOperations.StoreBetween` | MIT6.824/src/porcupine/checker.go:360-368 | End to end for the whole store, ties or not: ok implies linearizable, illegal implies that the history with ties made strict is not; and ok is answered if the strict history is linearizable, illegal if the history is not; there is an answer if and only if the history is not empty or there is a timeout |
| `CheckOperations.StoreVerdict` | MIT6.824/src/porcupine/checker.go:360-368 | If no return has the timestamp of a call, a non-empty history can be answered with ok if and only if it is linearizable, with illegal if and only if it is not, with unknown if and only if there is a timeout |
| `CheckOperations.PossibleExactly` | MIT6.824/src/porcupine/checker.go:360-368 | Over all sorts: ok is possible if and only if the history is linearizable, illegal if and only if the history with ties made strict is not |
| `CheckOperations.EmptyHistoryHangs` | MIT6.824/src/porcupine/checker.go:360-368 | An empty history has an answer if and only if there is a timeout, and then it is unknown |
| `CheckOperations.TieExample` | MIT6.824/src/porcupine/checker.go:39-55 | A linearizable history with a tie that can be answered with ok and with illegal |
| `Visualize.OpValues` | MIT6.824/src/porcupine/visualization.go:40-53 | The recorded inputs and outputs are those of the operations |
| `Visualize.ReplayOne` | MIT6.824/src/porcupine/visualization.go:63-78 | Replaying a legal prefix: the panic is dead code, and each step shows the state after the prefix up to it |
| `Visualize.CollectPartials` | MIT6.824/src/porcupine/checker.go:317-332 | One copy of the prefix behind each different pointer that is not nil |
| `Visualize.ShowPartials` | MIT6.824/src/porcupine/visualization.go:54-84 | Prefixes by falling length, each shown with its states; exactly the operations in one are pointed to the first that has them, which is a longest |
| `Kv.EqualityRespectsSteps` | MIT6.824/src/models/kv.go:17-54 | Equality of states meets what the checker needs of Equal |
| `Kv.Locality` | MIT6.824/src/models/kv.go:18-54 | The history of the whole store is linearizable if and only if the part of each key is, for the single register |
| `Kv.StoreToKeys` | MIT6.824/src/models/kv.go:18-54 | A global order restricts to a linearization of each key |
| `Kv.Merge` | MIT6.824/src/models/kv.go:18-54 | Linearizations of the keys merge into one global order of everything |
| `Kv.NextToMerge` | MIT6.824/src/models/kv.go:18-54 | The head of the key that the earliest return is on can always go next: nothing left precedes it, and the store accepts it |
| `Kv.Partition` | MIT6.824/src/models/kv.go:18-34 | The parts of exactly the keys that occur, in ascending byte order of the keys, each with its operations in order |
| `Kv.GroupByKey` | MIT6.824/src/models/kv.go:19-23 | Each key has its own operations, in order |
| `Kv.PartitionLocality` | MIT6.824/src/porcupine/model.go:28-32 | The contract of Partition: linearizable if and only if each partition is |
| `KvValues.AcceptedExactly` | MIT6.824/src/models/kv.go:40-54 | The store accepts an order if and only if every get in it returns the value of the last put on its key before it followed by the values appended since, in order |
| `Sorting.Sort` | MIT6.824/src/porcupine/checker.go:53 | Any permutation in order, not a particular one |
| `Sorting.LessIsBefore` | MIT6.824/src/models/kv.go:28 | The order of keys without recursion: one is a proper prefix of the other, or the first different character is smaller |
| `Sorting.SortedAscends` | MIT6.824/src/models/kv.go:28 | Sorted distinct keys ascend in that order |
| `Dataflow.GroupByNeighbour` | MIT6.824/src/mr/worker.go:155-168 | Comparing neighbours cuts the list into its runs of equal keys |
| `Dataflow.GroupByFirst` | MIT6.824/src/main/mrsequential.go:68-84 | Comparing with the first of the run cuts it the same way |
| `Dataflow.ReducedSorted` | MIT6.824/src/mr/worker.go:155-168 | On sorted pairs the lines are one per key, reduced on all of its values |
| `Dataflow.LinesAscend` | MIT6.824/src/mr/worker.go:148-168 | On sorted pairs the keys of the lines ascend strictly |
| `Dataflow.SameContentsSameLines` | MIT6.824/src/mr/worker.go:148-168 | The lines depend on the pairs only, not on their order, if the reduce function ignores the order of values |
| `Dataflow.Bucket` | MIT6.824/src/mr/worker.go:130-134 | Buffer r holds exactly the pairs whose hash is r, in order |
| `Dataflow.SlotLines` | MIT6.824/src/mr/worker.go:130-134 | The lines of a bucket are the lines of everything for the keys of that bucket |
| `Dataflow.BucketsCover` | MIT6.824/src/mr/worker.go:130-141 | All buckets together have the lines of everything, each once |
| `Dataflow.FetchedContents` | MIT6.824/src/mr/worker.go:196-214 | Fetching every map task's file once, in any order, fetches the whole bucket |
| `Dataflow.ReduceTasksWrite` | MIT6.824/src/mr/worker.go:147-174 | What each reduce task writes, whatever the order of files and the sort |
| `Dataflow.DistributedIsSequential` | MIT6.824/src/mr/worker.go:130-168 | For all inputs, map functions, hashes, bucket counts, file orders and sorts, the lines of all reduce tasks are those of the sequential program as a multiset |
| `Dataflow.KeyReducedOnce` | MIT6.824/src/mr/worker.go:130-168 | Each key is reduced exactly once, in the bucket of its hash, on all of its values |
| `Worker.ReadFromLocalFile` | MIT6.824/src/mr/worker.go:196-214 | The contents of the files, in order |
| `Worker.Mapper` | MIT6.824/src/mr/worker.go:121-145 | Writes one file per reduce task with its bucket, touches no other file and reports the names |
| `Worker.Reducer` | MIT6.824/src/mr/worker.go:147-174 | The reduced lines of some sort of what the files hold, in ascending order of their keys |
| `Worker.Sequential` | MIT6.824/src/main/mrsequential.go:38-84 | The reduced lines of some sort of everything mapped, in ascending order of their keys |
| `Job.MapperWrites` | MIT6.824/src/mr/worker.go:121-145 | What Mapper does to the disk is a write that goes with the report of its task |
| `Job.ReducerWrites` | MIT6.824/src/mr/worker.go:147-174 | So is what Reducer does |
| `Job.ResultsHold` | MIT6.824/src/mr/worker.go:121-145 | In every run, no hypotheses: the files of every accepted map result are on disk with the right contents, whatever late workers write |
| `Job.JobCorrect` | MIT6.824/src/mr/master.go:104-220 | End to end: in every run of master and workers under H1 and H2, from a disk with anything on it, and for a reduce function that ignores the order of values: when the master is at Exit every reduce task has its output file, with ascending keys, and all of them together hold the lines of the sequential program |
| `Job.JobFinishes` | MIT6.824/src/mr/master.go:104-220 | With an input file and a reduce task there is such a run of master and workers to Exit, from any disk |
| `MasterRuns.CollectLists` | MIT6.824/src/mr/master.go:207-209 | Collecting the files of a map task extends every list by that task |
| `Scheduler.Master.CollectFiles` | MIT6.824/src/mr/master.go:207-209 | The loop puts file i of a result at the end of list i and leaves the other lists alone |
| `Scheduler.Master.constructor` | MIT6.824/src/mr/master.go:104-115 | The new master is the first state of the runs |
| `Scheduler.Master.CreateMapTask` | MIT6.824/src/mr/master.go:141-155 | Queues and records one task per file, until a send would wait |
| `Scheduler.Master.CreateReduceTask` | MIT6.824/src/mr/master.go:157-172 | Replaces the table and queues one task per list, until a send would wait |
| `Scheduler.Master.AssignTask` | MIT6.824/src/mr/master.go:175-188 | Hands out the head of the queue and marks it in progress, whatever its status was |
| `Scheduler.Master.TaskCompleted` | MIT6.824/src/mr/master.go:190-199 | Accepts a report exactly if phase and status allow, and then starts a result goroutine |
| `Scheduler.Master.ProcessTaskResult` | MIT6.824/src/mr/master.go:201-220 | Collects the files and switches the phase when all is done |
| `Scheduler.Master.AllTaskDone` | MIT6.824/src/mr/master.go:222-229 | True if and only if every task in the table is completed |
| `Scheduler.Master.CatchTimeOut` | MIT6.824/src/mr/master.go:123-138 | One pass: every task in progress that is late becomes idle and its task goes to the end of the queue, once, in some order; every other task and field stays as it was; at Exit nothing happens |
| `MasterRuns.AlwaysHolds` | MIT6.824/src/mr/master.go:123-229 | In every run, no hypotheses: an idle task is in the queue, so none is stranded; list r names exactly the processed map tasks |
| `MasterRuns.OneAtATimeHolds` | MIT6.824/src/mr/master.go:157-229 | Under H1 alone every reduce task ever created lists a file of every map task |
| `MasterRuns.OrderlyHolds` | MIT6.824/src/mr/master.go:104-220 | Under H1 and H2: the queue holds exactly the idle tasks once each, no send waits under the lock, each list names each processed map task once, and Exit means that every reduce task is completed |
| `MasterRuns.StepOrderly` | MIT6.824/src/mr/master.go:104-220 | Under H1 and H2 a step keeps this, and the phase only moves on, one at a time, with no result left waiting |
| `MasterRuns.QueueHasRoom` | MIT6.824/src/mr/master.go:106-139 | Whenever some task is not idle there is room for one more in the queue |
| `MasterRuns.QueueNotDone` | MIT6.824/src/mr/master.go:201-220 | When all tasks are done the queue is empty |
| `MasterRuns.AllMapped` | MIT6.824/src/mr/master.go:211-214 | When the map phase ends the queue is empty and every map task has been processed exactly once |
| `MasterLimits.MissesExactly` | MIT6.824/src/mr/master.go:201-220 | No hypotheses: when the map phase ends, no map task is missing from the lists if and only if every result still waiting belongs to a task already processed |
| `MasterStuck.StuckExactly` | MIT6.824/src/mr/master.go:106-220 | No hypotheses, every run: a critical section fails to end if and only if a worker is handed a stale copy whose number is not in the table, or the reduce tasks are created while what is left in the queue plus the new tasks exceed its capacity; so a report and a timeout pass always end |
| `MasterStuck.RoomHolds` | MIT6.824/src/mr/master.go:106-139 | In every run the queue has a place for every task that is out with a worker |
| `MasterStuck.CrashRun` | MIT6.824/src/mr/master.go:175-188 | A run without H2 in which a stale copy is handed out after the switch |
| `MasterListings.TwiceExactly` | MIT6.824/src/mr/master.go:175-220 | No hypotheses, every run: a file is listed or waiting twice if and only if its task was handed out after its completion and a later report of it was accepted |
| `MasterListings.ListedOnce` | MIT6.824/src/mr/master.go:175-220 | Under H2 alone no file is listed or waiting twice |
| `MasterProgress.CanFinish` | MIT6.824/src/mr/master.go:104-220 | With a file and a reduce task, every run under H1 and H2 goes on to one that is at Exit, and new workers alone are enough: the continuation starts with a timeout pass, and every report in it is of a task that was handed out in it |
| `MasterProgress.FinishesExactly` | MIT6.824/src/mr/master.go:104-229 | Some run reaches Exit if and only if there are a file and a reduce task |
| `MasterStuck.StuckRun` | MIT6.824/src/mr/master.go:123-220 | A run without H2 in which the reduce tasks do not fit |
| `MasterLimits.DuplicateFileRun` | MIT6.824/src/mr/master.go:123-220 | A run without H2 in which a file is listed twice |
| `MasterLimits.MissingFileRun` | MIT6.824/src/mr/master.go:190-220 | A run without H1 in which a reduce task misses a file |
| `Paths.ParsePattern` | Geektutu/Gee/gee/router.go:20-32 | The non-empty pieces, up to and with the first that begins with a star |
| `Paths.ParseSegments` | Geektutu/Gee/gee/router.go:20-32 | No empty part, no slash in a part, a star at most at the end |
| `Paths.ParseJoin` | Geektutu/Gee/gee/router.go:20-32 | Every list of that form is what its joined path parses to |
| `Paths.JoinSplit` | Geektutu/Gee/gee/router.go:21 | Splitting loses nothing |
| `Trie.FirstFit` | Geektutu/Gee/gee/trie.go:12-19 | The first child that fits |
| `Trie.InsertAt` | Geektutu/Gee/gee/trie.go:31-46 | Registering changes the pattern of exactly one node, the one the registration is spelled as |
| `Trie.InsertShaped` | Geektutu/Gee/gee/trie.go:31-46 | No child fits a later sibling, so a wild child is last, and a star node always has a pattern |
| `TrieLookup.SearchSound` | Geektutu/Gee/gee/trie.go:48-65 | What is found is the pattern of a node whose spelling matches the path; every other such node is wild where it first differs from this one, which is literal there |
| `TrieLookup.PreferredOneWay` | Geektutu/Gee/gee/trie.go:48-65 | That decides between any two nodes |
| `TrieLookup.SearchComplete` | Geektutu/Gee/gee/trie.go:48-65 | If some node with a pattern takes the path, something is found |
| `TrieNode.Node.MatchChild` | Geektutu/Gee/gee/trie.go:12-19 | The first child that fits, if any |
| `TrieNode.Node.MatchChildren` | Geektutu/Gee/gee/trie.go:21-29 | The children that fit, in order |
| `TrieNode.Node.Insert` | Geektutu/Gee/gee/trie.go:31-46 | The nodes updated in place form the trie with the pattern registered |
| `TrieNode.Node.Search` | Geektutu/Gee/gee/trie.go:48-65 | Finds what the lookup in the trie finds, and nothing if it finds nothing |
| `TrieNode.SearchFitting` | Geektutu/Gee/gee/trie.go:57-63 | Looking only at the children that fit changes nothing |
| `RouteTable.PatternAtTree` | Geektutu/Gee/gee/router.go:34-43 | A node has the pattern that was registered last under its spelling |
| `RouteTable.LookupSound` | Geektutu/Gee/gee/router.go:50-62 | For every sequence of registrations: what is found is the last registration under a spelling that matches the path |
| `RouteTable.LookupPrefers` | Geektutu/Gee/gee/router.go:50-62 | Of several spellings that match, the one found has a literal part where it first differs from another, which is wild there |
| `RouteTable.LookupIsScanOfSpellings` | Geektutu/Gee/gee/router.go:50-62 | For every table, merged or not: a path is found if and only if some spelling matches it |
| `RouteTable.PatternDepth` | Geektutu/Gee/gee/trie.go:31-46 | Every node's pattern was registered and parses to as many parts as the node is deep |
| `RouteTable.FoundFitsPath` | Geektutu/Gee/gee/router.go:59-77 | What is found has no more parts than the path, so reading parameters stays in range |
| `RouteTable.StarFreeFound` | Geektutu/Gee/gee/trie.go:48-65 | A path that matches a registered pattern without star is found, whatever was merged |
| `RouteExactness.NoMergeAgrees` | Geektutu/Gee/gee/trie.go:12-65 | Without merging, a path is found if and only if some registered pattern matches it, and the one found matches |
| `RouteExactness.ConditionsSuffice` | Geektutu/Gee/gee/trie.go:12-65 | The same for every table in which each node's pattern matches what leads to it and patterns with a star are covered |
| `RouteProbes.ExactIff` | Geektutu/Gee/gee/trie.go:12-65 | Lookup agrees with a scan of the patterns on every path if and only if those two conditions on the table hold |
| `RouteProbes.ProbeFound` | Geektutu/Gee/gee/trie.go:48-65 | For every node with a pattern there is a path that finds exactly it |
| `RouteExamples.LiteralIntoWild` | Geektutu/Gee/gee/trie.go:14 | After `/:a` and `/b`, the path `/x` is answered with `/b` |
| `RouteExamples.StarIntoColon` | Geektutu/Gee/gee/trie.go:14 | After `/:b` and a star at the same place, a path of two segments is not found |
| `Params.ExtractParams` | Geektutu/Gee/gee/router.go:64-77 | The parameters of a matched pattern |
| `Params.ParamsExactly` | Geektutu/Gee/gee/router.go:64-77 | For every pattern: exactly the names in it have a value, a bare star none; where a name occurs more than once the last part with it decides |
| `Params.Rebuilds` | Geektutu/Gee/gee/router.go:63-78 | With distinct names and no bare star, putting the parameters into the pattern gives the joined path |
| `Params.RebuiltPath` | Geektutu/Gee/gee/router.go:63-78 | The rebuilt path parses to the segments that were searched |
| `Router.Router.AddRoute` | Geektutu/Gee/gee/router.go:34-48 | Tries and handlers are those of the routes registered so far, with the new one at the end |
| `Router.Router.GetRoute` | Geektutu/Gee/gee/router.go:50-79 | The result of the lookup in the trie of the method with its parameters; indices stay in range |
| `Router.Router.Handle` | Geektutu/Gee/gee/router.go:81-93 | A path that is found has a handler in the map |
| `Router.HasHandler` | Geektutu/Gee/gee/router.go:44-47 | Every registered pattern has a handler under its key |
| `Router.LastHandler` | Geektutu/Gee/gee/router.go:44-47 | With methods without dash, it is the handler registered last for that method and pattern |
| `Context.Context.Next` | Geektutu/Gee/gee/context.go:98-103 | Ends with the chain over; how many handlers have started then is known |
| `Context.Context.Fail` | Geektutu/Gee/gee/context.go:38-39 | The chain is over, and none starts later |
| `Context.Dispatch` | Geektutu/Gee/gee/context.go:98-103 | Dispatch ends; handlers start as 0, 1, 2, ... without gap or repeat and never after a Fail, up to the first that fails before it calls Next |
| `Context.StartsIff` | Geektutu/Gee/gee/context.go:38-39 | A handler starts if and only if no handler before it fails first |
| `Context.AllStart` | Geektutu/Gee/gee/context.go:98-103 | Without Fail every handler starts |
| `RpcClient.OnePlace` | Geektutu/GeeRPC/client.go:74-161 | In every interleaving: a registered call has its own number, not zero, and is in exactly one place: pending, with its sender, with the receiver, delivered, or dropped; a refused call is delivered once |
| `RpcClientEvents.PendingExactly` | Geektutu/GeeRPC/client.go:74-104 | A registered call is pending if and only if no reply with its number, no failed write and no end of its context has come since, nor terminateCalls |
| `RpcClientEvents.DeliveredExactly` | Geektutu/GeeRPC/client.go:27-29 | A call is delivered once if one of the events that deliver it has happened, and not otherwise |
| `RpcClientEvents.DroppedExactly` | Geektutu/GeeRPC/client.go:183-186 | A call is dropped if and only if its context ended while it was pending |
| `RpcClientEvents.WriteErrorSettled` | Geektutu/GeeRPC/client.go:125-133 | A call whose write failed is, when its send has returned, delivered, dropped, or held by the receiver; it is not left pending |
| `RpcClientEvents.ReplyDelivers` | Geektutu/GeeRPC/client.go:143-158 | After a reply its call is out of the table and delivered once the body has been read |
| `RpcClientEvents.SendGoesOn` | Geektutu/GeeRPC/client.go:106-134 | A send that has not returned can take its next step, or waits for the sending lock and its holder can |
| `RpcClientEvents.SendReturns` | Geektutu/GeeRPC/client.go:106-134 | Every run goes on to one in which the send of a given call has returned |
| `RpcClientEvents.FlagsExactly` | Geektutu/GeeRPC/client.go:57-104 | The client is closing if and only if Close was called and shut down if and only if terminateCalls was |
| `RpcClientEvents.RefusedExactly` | Geektutu/GeeRPC/client.go:74-117 | A call is refused if and only if one of them came before it could register; otherwise it is then pending |
| `RpcClientEvents.OverExactly` | Geektutu/GeeRPC/client.go:181-190 | Call returns once, from its Done channel or because its context has ended |
| `RpcClientEvents.CallReturns` | Geektutu/GeeRPC/client.go:181-190 | Whatever the connection does, every run goes on to one in which a context that ends has got Call out |
| `RpcClientEvents.OverReturned` | Geektutu/GeeRPC/client.go:181-190 | Call never returns before its send has |
| `RpcClientEvents.TakenWasDelivered` | Geektutu/GeeRPC/client.go:187-188 | From its channel only after the one delivery |
| `RpcClientEvents.ReceiverExactly` | Geektutu/GeeRPC/client.go:136-161 | The receive loop ends if and only if a header or a body could not be read; replies to unknown calls do not end it |
| `RpcClient.DoneNeverBlocks` | Geektutu/GeeRPC/client.go:27-29 | Who delivers a call finds its Done channel empty, so room for one is enough |
| `RpcClient.ReplyToItsCall` | Geektutu/GeeRPC/client.go:136-161 | A reply goes to the call registered under its number |
| `RpcClient.TerminateSettles` | Geektutu/GeeRPC/client.go:94-104 | After terminateCalls every call whose send has returned is delivered or dropped |
| `RpcClient.LeftBehind` | Geektutu/GeeRPC/client.go:136-161 | Without terminateCalls, once the receive loop has ended and its send has returned, a call stays undelivered for ever if and only if it is then pending or was dropped |
| `RpcClient.HangingRun` | Geektutu/GeeRPC/client.go:136-161 | A run that leaves a call pending like this |
| `RpcClientObject.Client.RegisterCall` | Geektutu/GeeRPC/client.go:74-84 | Gives the next number and fills the table, or refuses and changes nothing |
| `RpcClientObject.Client.RemoveCall` | Geektutu/GeeRPC/client.go:86-92 | Takes the entry out and returns it, or nil |
| `RpcClientObject.Client.TerminateCalls` | Geektutu/GeeRPC/client.go:94-104 | Fails and delivers every pending call once, and leaves the table as it is but for shutdown |
| `RpcClientObject.Client.HandleReply` | Geektutu/GeeRPC/client.go:143-159 | Delivers the call of this number once, with the error of the header or of the body, and no other |
| `RpcServer.AnsweredOnce` | Geektutu/GeeRPC/server.go:183-219 | In every interleaving a request is answered at most once, exactly once when its goroutine is done, with the timeout error only if the limit won |
| `RpcServer.RightAnswer` | Geektutu/GeeRPC/server.go:183-219 | Which answer, from the events alone: the timeout error if the limit passed before both sides met on `called`, else the result or the error according to how the method returned; a request that is done has had exactly that one |
| `RpcServer.OneWriter` | Geektutu/GeeRPC/server.go:111-133 | At most one goroutine, the loop included, writes a response at a time |
| `RpcServer.RefusedOnce` | Geektutu/GeeRPC/server.go:117-126 | Every request whose body could not be read is answered by the loop, once, before it reads on |
| `RpcServer.LoopExactly` | Geektutu/GeeRPC/server.go:116-132 | The loop reads on until nothing can be read, whatever it refused before; every accepted request has its goroutines |
| `RpcServer.ClosedAfterAnswers` | Geektutu/GeeRPC/server.go:111-133 | The codec is closed only after every request has had exactly one response, the one that its events call for, and when nobody can write any more |
| `RpcServer.LateStaysBlocked` | Geektutu/GeeRPC/server.go:187-210 | A method that outlives its limit stays blocked on `called` in every continuation and never answers |
| `RpcServer.NotDeadlocked` | Geektutu/GeeRPC/server.go:183-219 | A request that is not done can take a step of its own, or waits for the sending lock and its holder can give it back |
| `RpcServer.StepsRunOut` | Geektutu/GeeRPC/server.go:183-219 | Every step but the reading of a request makes a measure smaller |
| `RpcServer.AllGetDone` | Geektutu/GeeRPC/server.go:183-219 | Every run goes on, without another request, to one in which all requests are done |
| `RpcServer.CanClose` | Geektutu/GeeRPC/server.go:111-133 | Once nothing more is read, every run goes on to one in which the codec is closed |

## Left out

- CheckSingle.CheckSingle: asks for a well-formed list and for an Equal that respects Step, which the code does not check; values of all operations have one type.
- Kv.Locality: asks that no operation returns before its call and that inputs and outputs have the types of the key/value service.
- Sorting.Sort: any sorted permutation may come out; the sorting algorithm is not modelled.
- Kv.Partition: a value of the wrong dynamic type, on which the code panics, is excluded; inputs are of the input type.
- Visualize.ShowPartials: client ids, times and descriptions of operations and states are not modelled.
- Worker.ReadFromLocalFile: asks that the files exist; a missing file ends the worker in the code.
- Scheduler.Master.ProcessTaskResult: asks for at most one file per reduce task, which every worker reports; the code would panic on more.
- Job.JobCorrect: a worker reads and writes its files in the step in which it reports; since contents never change once they are right, reading them over a longer time gives the same.
- RpcServer.AllGetDone: takes it that a method that is running can return.
- Scheduler.Master.CatchTimeOut: which tasks are late is a parameter; the clock is not modelled.
- RpcClient.OnePlace: sequence numbers do not wrap at 64 bits.
- RpcClientObject.Client.RegisterCall: asks for a call that has not been registered before, as every call of the code is.
- Events.ConvertEntries: takes ids that are natural numbers, as renumbering gives them.
- Context.Dispatch: a handler is the list of its calls of Next and Fail; what else it does is not modelled, and the index does not wrap.
- RpcServer.RightAnswer: a response is its kind; the values in it are not modelled.
- RpcClientEvents.DeliveredExactly: the error that a delivered call carries is stated for the client object (`RpcClientObject.Client.HandleReply`, `TerminateCalls`) and not in the state machine.
- The Raft, kvraft, shardmaster and shardkv packages: their handlers are empty.
- labrpc, labgob, codecs, gob and JSON: encoding is taken as the identity.
- The FNV hash, file names, temporary files and renaming: a hash is any function and a file name is its two numbers.
- GeeRPC services by reflection, dialing, options and the HTTP parts; Gee templates, static files, groups and writers.
- The HTML of the visualizer and the Describe functions.
