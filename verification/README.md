# Sigil, modelled and proved in Dafny

Sigil is a small language with a Rust compiler and a C runtime. This project models the five
parts of it whose correctness takes an argument, and proves what each of them is for:

1. **The concurrency runtime** (`Condvar`, `Channel`, `Runtime`, `Reaping`, `Progress`,
   `SharedWaits`, `Shutdown`, `PoolResults`, `WorkQueue`, `TaskTable`, `RuntimeTable`). Channel, work queue,
   worker pool, WAIT/WAIT_ANY and shutdown are transition systems whose steps are the regions
   executed with a lock held, from acquiring it (or returning from a condition wait) to the next
   wait or unlock. A signal wakes at least one
   sleeper if there is one; spurious wakeups may happen at any time. All theorems are about
   every state of every run, for any number of threads. The ring buffer, the intrusive queue
   and the handle table are classes. The methods of the first two are proved to perform the
   locked regions, wakeups included; for the handle table lemmas say that its methods do to the
   slots what SPAWN, WAIT and WAIT_ANY do to the table of the model.
2. **The scope allocator** (`ScopeMemory`, `ScopeLifetimes`): the value-level theory of all call sequences, and
   the linked objects that implement it.
3. **The control-flow graph and the analyses on it** (`Ast`, `CfgBuilder`, `CfgMeaning`,
   `CfgPaths`, `WritesOutput`, `Termination`, `DataFlow`, `DataFlowSweeps`,
   `DataFlowReports`, `DataFlowPass`, `DataFlowConvergence`, `DataFlowExamples`, `WritesAgree`). The meaning
   of a statement list is the set of statement sequences its executions visit, either outcome
   of a branch being possible; every verdict is related to these executions, not just to the graph.
4. **The whole-program checks** (`Kahn`, `ProjectGraph`, `GraphCycles`, `Purity`,
   `Consumption`, `Mentions`), each proved an exact decision procedure.
5. **Contract identity** (`Contracts`, `HashPreImage`, `Lexer`, `Parser`, `LexedText`,
   `Literals`, `Registry`, `RoundTrip`, `References`, `Clauses`, `LostEntries`, `RegistryFile`): the
   bytes under the contract hash, and printing, splitting, lexing and parsing the registry.

`Common` holds what several modules share. Functions and predicates on values say what the
code computes; methods and classes have the shape of the code and are proved to compute it;
lemmas state the theorems. What the basic functions mean is stated without them: over the
fields of a statement, an expression or a graph, over runs, or over texts. Iteration over a hash
map is an arbitrary choice at every step. Every lemma is marked `{:induction false}`, so
that all proofs by induction are written out. `dafny verify dfyconfig.toml` checks everything.

## What turned out not to hold

Where the code does not do what its comments say, the model follows the code, and a lemma
gives the input.

- *A second waiter.* The comment at `runtime/src/task.c:143-146` says that holding the table
  lock across WAIT protects the task pointer, also when a WAIT races a WAIT_ANY. The wait
  releases that lock: `SecondWaiterHoldsADestroyedTask` gives one run for WAIT against WAIT and
  one for WAIT against WAIT_ANY in which a thread resumes with a pointer to a destroyed task.
  `SafeExactlyIfCareful` says which calls are safe: a call that takes a completed task must not
  take it from a WAIT, a WAIT that sleeps must be alone on its handle, and a WAIT_ANY that
  sleeps must not share a handle with a WAIT. WAIT_ANYs may share handles among themselves.
- *A missed shutdown.* The flag is raised and broadcast outside the queue lock
  (`runtime/src/runtime.c:43-44`). A worker can go to sleep after the broadcast if and only if
  some worker has, at that moment, found the queue empty and the flag down without sleeping yet
  (`BroadcastMissedExactly`). Without a further broadcast, a new task or a spurious wakeup it
  then sleeps for good, and shutdown does not return (`SleepsForGood`).
- *Dataflow and loops back to the start.* If a later block leads back to the first block, the
  dataflow pass may record an output as written that an execution never writes
  (`LoopToStartFoolsTheAnalysis`). Its must-facts are true, whatever the blocks contain,
  exactly for the graphs whose entry has no predecessor or is one of its own
  (`EntryDecidesMustFacts`).
- *Dataflow that does not converge.* The sweeps may go on changing states for ever, so that
  the loop ends at its bound. With at most 1000 blocks the result is complete all the same
  (`AnalyzeDataFlow`). The sweeps do converge, after as many as there are blocks, if every
  block but the first has an earlier predecessor and the entry has no predecessor or is one of
  its own (`ForwardSettles`, `ForwardConverges`; for statements `OnwardConverges`). Neither
  condition can be dropped: `SweepsMayNeverConverge` fails only the first,
  `ForwardMayNeverConverge` only the second. This holds one way only: graphs that fail a
  condition may converge too.
- *Dataflow reports that are not true.* An output may be reported although every execution
  writes it (`ReportMayBeFalse`). Reports of outputs are true, whatever the blocks contain and
  however often is swept, exactly for the graphs in which every block that leads to an exit
  other than through the entry has an earlier predecessor (`RootedExitsDecideMisses`; for the
  states of all blocks `ForwardDecidesMisses`); reports of leaks exactly for those in which no
  unreachable block leads to an exit (`StrayExitsDecideLeaks`).
- *The hash of unpinned or oddly pinned contracts.* Pre-images of different contracts coincide
  as soon as pins of two different lengths may occur; they are unique exactly when all pins
  have one length (`InjectiveExactlyForOneLength`).
- *Pins of digits only and sizes of 64 bits.* `REQUIRES p@12345678 add` is lexed as an integer
  and an identifier of hexadecimal letters, and read as one hash, with `add` no longer required
  (`NameIsSwallowed` for all such names and pins, `DigitPinIsLost` for this one).
  `INPUT buf bytes -1` is read as the size 2^64 - 1, which is printed in decimal and then no
  literal the lexer accepts (`NegativeSizeIsLost`). A registry entry survives writing and loading exactly when no pin of
  digits only is directly followed by a hexadecimal name and no size is 2^63 or more
  (`BlockRoundTrip`, `RegistryRoundTrip`); otherwise its contract is missing after loading.
- *Cycle reports.* The behaviors listed as "involved" in a circular dependency are those on a
  cycle and those required by one, so an innocent one may be listed
  (`InnocentBehaviorIsListed`). The list is exactly the behaviors on cycles if and only if no
  behavior on a cycle requires a local one that is on none (`ReportIsCycleExactly`).

## Model

| member | source | states |
|---|---|---|
| Channel.ChannelObject.constructor | runtime/src/channel.c:26-49 | a new channel is an initial state; capacity 0 becomes 1 |
| Channel.ChannelObject.Send | runtime/src/channel.c:89-118 | one locked pass of a send is a send region: sleep while full and open, fail if closed, else write at the tail and wake a receiver |
| Channel.ChannelObject.Receive | runtime/src/channel.c:120-149 | one locked pass of a receive is a receive region |
| Channel.ChannelObject.Close | runtime/src/channel.c:151-163 | close sets the flag and wakes everybody |
| Channel.StepKeepsInv | runtime/src/channel.c:89-163 | every step keeps the index arithmetic and both wakeup bounds |
| Channel.NoLostWakeups | runtime/src/channel.c:89-163 | in every state of every run a sleeping receiver means open and count at most the woken receivers, dually for senders and free slots; a sleeping sender and a sleeping receiver never coexist with nobody woken |
| Channel.StepIsQueueStep | runtime/src/channel.c:105-144 | a step of the ring buffer is a step of an unbounded queue |
| Channel.FifoRefinement | runtime/src/channel.c:89-163 | in every interleaving the values sent are the values received followed by the buffer read from head |
| Channel.NoSendAfterClose | runtime/src/channel.c:100-103 | once closed, always closed, and no send succeeds any more |
| Channel.ReceiveFailsOnlyWhenDrained | runtime/src/channel.c:131-134 | a receive returns -1 only if everything ever sent, also later in the run, has been received |
| Channel.ReceivedInSendOrder | runtime/src/channel.c:89-149 | over a whole run the received values are a prefix of the sent ones, at most a buffer behind |
| Channel.SendReturns | runtime/src/channel.c:96-117 | over every run: a send fails iff the channel is closed, sleeps iff it is open and holds capacity values, and otherwise appends its value |
| Channel.ReceiveReturns | runtime/src/channel.c:127-148 | over every run: a receive returns the oldest value if there is one, and without one fails iff the channel is closed and sleeps iff it is open |
| Channel.SendWakes | runtime/src/channel.c:111-114 | a successful send wakes a sleeping receiver if there is one and touches no other thread |
| Channel.ReceiveWakes | runtime/src/channel.c:142-145 | a successful receive wakes a sleeping sender if there is one and touches no other thread |
| Channel.CloseWakesAll | runtime/src/channel.c:151-163 | closing wakes every sleeper and changes no value |
| WorkQueue.Scheduler.constructor | runtime/src/scheduler.c:7-14 | a new queue is empty and running |
| WorkQueue.Scheduler.Enqueue | runtime/src/scheduler.c:36-53 | the list grows by the task at its tail and one sleeper is signalled; on a runtime state this is the enqueue step of a spawn |
| WorkQueue.Scheduler.Append | runtime/src/scheduler.c:39-47 | the list operations: the task is linked at the tail, the list stays one of distinct nodes |
| WorkQueue.Scheduler.Dequeue | runtime/src/scheduler.c:55-81 | sleep, quit or take exactly the oldest task and unlink it; on a runtime state this is the dequeue step of the worker |
| WorkQueue.Scheduler.FallAsleep | runtime/src/scheduler.c:60 | the wait on queue_not_empty, as a step of the runtime |
| WorkQueue.Scheduler.Shutdown | runtime/src/scheduler.c:16-34 | flag set, everybody woken, queue empty; after the join this is what cleanup does to queue and threads |
| Runtime.StepKeepsInv | runtime/src/worker.c:11-37 | every step of spawn, dequeue, worker, WAIT, WAIT_ANY and shutdown keeps the invariant |
| Runtime.ReachableInv | runtime/src/task.c:115-213 | the invariant holds in every reachable state |
| Runtime.EveryTaskInExactlyOnePlace | runtime/src/task.c:115-138 | a task is in exactly one of: not yet enqueued, queued, held by one worker, completed; queue without duplicates, one holder |
| Runtime.DequeuedInOrderRunAtMostOnce | runtime/src/scheduler.c:36-81 | enqueued equals dequeued followed by queued; no task runs twice, and only dequeued ones run |
| Runtime.ShutdownRunsEverythingOnce | runtime/src/runtime.c:37-50 | when all workers have exited and no outside thread enqueued after the flag, the queue is empty and the enqueued tasks are exactly the ones that ran, once each, to completion |
| Runtime.NobodySleepsOnACompletedTask | runtime/src/task.c:140-213 | nobody sleeps in WAIT on a completed task, nor in WAIT_ANY with a completed task among its handles |
| Runtime.WorkersNeverTouchDestroyedTasks | runtime/src/worker.c:20-36 | whoever waits, no task held by a worker, queued or in the table has been destroyed |
| Runtime.NoLostQueueWakeups | runtime/src/scheduler.c:36-81 | while a worker sleeps, at most as many tasks are queued as workers are woken |
| PoolResults.WaitReturns | runtime/src/task.c:140-168 | over every run: WAIT takes a completed task and its handle, sleeps on an uncompleted one, returns at once on an unknown handle |
| PoolResults.WokenWaitReturns | runtime/src/task.c:154-168 | the same when it is woken, for the task it has a pointer to |
| PoolResults.WaitAnyReturns | runtime/src/task.c:186-212 | WAIT_ANY, called or woken, takes the first completed task in list order and sleeps only if there is none |
| PoolResults.DequeueReturns | runtime/src/scheduler.c:55-81 | a worker takes the oldest task as long as there is one, and without one exits iff shutdown is raised |
| PoolResults.SpawnReturns | runtime/src/task.c:115-138 | a new pending task under a fresh handle, then at the end of the queue |
| PoolResults.CompletionReturns | runtime/src/worker.c:28-35 | completion wakes every WAIT on the task and every WAIT_ANY, and nobody else |
| Reaping.CarefulWaitersAreSafe | runtime/src/task.c:140-213 | in every run whose calls are careful no thread ever holds a pointer to a destroyed task and no task is destroyed twice |
| Reaping.CleanupDestroysEveryTaskOnce | runtime/src/runtime.c:52-64 | in every such run, after cleanup every task ever created has been destroyed exactly once |
| SharedWaits.SafeExactlyIfCareful | runtime/src/task.c:140-213 | in every careful run, for every next WAIT or WAIT_ANY: no continuation with careful later calls dangles if and only if the call is careful, wherever the tasks concerned are: completed, or some other worker that is not itself waiting has them in hand, or they are still to be enqueued or dequeued and there is such a worker |
| SharedWaits.SharedWaitCanGoWrong | runtime/src/task.c:154-211 | from every state in which a WAIT shares its handle with a WAIT or a WAIT_ANY and a worker can still get to finish the task, some continuation leaves a WAIT with a destroyed task |
| Progress.GetsToRun | runtime/src/scheduler.c:36-81 | a worker that is not itself waiting can get any task that is in its hands or in nobody's into execution, working through the queue before it, while nobody that waits moves on |
| SharedWaits.SecondWaiterHoldsADestroyedTask | runtime/src/task.c:143-168 | two runs from the start, WAIT against WAIT and WAIT against WAIT_ANY, that end with a waiter holding a destroyed task |
| SharedWaits.SelfWaitNeverEnds | runtime/src/task.c:154-156 | a task whose own code waits for it is never completed, in any run |
| Shutdown.BroadcastMissedExactly | runtime/src/runtime.c:43-44 | in every run: after the broadcast a worker may still go to sleep if and only if some worker was between its test and its sleep at the broadcast |
| Shutdown.SleepsForGood | runtime/src/runtime.c:43-47 | a worker asleep then sleeps, and the pool is not joined, as long as there is no further broadcast, new task or spurious wakeup of it |
| Shutdown.ShutdownBroadcastCanBeMissed | runtime/src/runtime.c:43-47 | a run from the start in which a worker goes to sleep after the broadcast |
| TaskTable.Table.constructor | runtime/src/runtime.c:16-19 | the table starts with 1024 free slots |
| TaskTable.Table.Insert | runtime/src/task.c:45-82 | the task goes to the least free index from 1 on; a full table doubles, everything else unchanged |
| TaskTable.Table.Get | runtime/src/task.c:84-97 | the slot of a handle in range, else nothing |
| TaskTable.Table.Remove | runtime/src/task.c:99-109 | exactly that slot becomes free; 0 and out-of-range handles do nothing |
| TaskTable.InsertCounts | runtime/src/task.c:50-74 | an insert adds one live task, its handle is at most the live tasks, and growth happens only when all slots are live |
| TaskTable.CapacityBoundedByPeak | runtime/src/task.c:45-109 | over any history, capacity is at most max(1024, twice the peak of live tasks) |
| TaskTable.InsertGivesAFreshSmallHandle | runtime/src/task.c:45-82 | over any history an insert returns a nonzero unused handle, the least one, and keeps every other mapping |
| TaskTable.HandleStable | runtime/src/task.c:45-109 | a handle leads to its task until that handle is removed |
| RuntimeTable.GetLooksUp | runtime/src/task.c:84-97 | a lookup finds a task exactly where the model's table has one |
| RuntimeTable.InsertIsSpawn | runtime/src/task.c:115-131 | an insert gives a handle the model's table does not have, adds exactly that, and is the first half of a spawn |
| RuntimeTable.WaitClears | runtime/src/task.c:154-167 | a WAIT clears the slot exactly when it reaps |
| RuntimeTable.WaitAnyClears | runtime/src/task.c:188-211 | a WAIT_ANY clears the slot of the first completed task, if there is one |
| ScopeMemory.CallKeepsInv | runtime/src/memory.c:49-112 | every call keeps: live blocks are the disjoint union of the open registries, and malloc'd is freed plus live; only live blocks are freed |
| ScopeMemory.EveryCallSequenceIsSafe | runtime/src/memory.c:49-112 | the same along every sequence of calls |
| ScopeMemory.RootDestroyFreesEverythingOnce | runtime/src/memory.c:96-112 | destroying the root frees exactly what was allocated, once each, orphaned descendants included |
| ScopeMemory.SecondReleaseDoesNothing | runtime/src/memory.c:77-94 | a repeated FREE changes nothing |
| ScopeLifetimes.BlockLivesExactly | runtime/src/memory.c:63-112 | over every sequence of calls: a block is live from its allocation until the first call that destroys its scope or one around it, or frees it from its scope or one inside it; that call frees it once |
| ScopeLifetimes.NothingElseChanges | runtime/src/memory.c:49-112 | only allocation makes a block live, in the scope named; only those calls end a life |
| ScopeLifetimes.NewScopeIsInnermost | runtime/src/memory.c:49-60 | a new scope is empty and innermost; destroying one leaves just those around it |
| ScopeMemory.Scope.Register | runtime/src/memory.c:66-73 | the block is appended, the array doubling when full |
| ScopeMemory.Scope.Unregister | runtime/src/memory.c:87-88 | swap-remove of one slot |
| ScopeMemory.Scope.FreeRegistry | runtime/src/memory.c:104-106 | every registered block is freed once, each live when freed |
| ScopeMemory.Invocation.CreateScope | runtime/src/memory.c:49-60 | the linked objects perform Create |
| ScopeMemory.Invocation.AllocIn | runtime/src/memory.c:63-75 | the linked objects perform Alloc |
| ScopeMemory.Invocation.FreeFrom | runtime/src/memory.c:81-94 | the search along the parent links performs Release |
| ScopeMemory.Invocation.FindOwner | runtime/src/memory.c:83-92 | the loops find the nearest scope, from the given one upwards, that registers the block, or none |
| ScopeMemory.Invocation.DestroyScope | runtime/src/memory.c:99-112 | the recursive cascade performs Destroy |
| CfgBuilder.Builder.FinishBlock | compiler/src/cfg.rs:356-375 | the block under construction is closed and numbered, its label registered |
| CfgBuilder.Builder.FirstPass | compiler/src/cfg.rs:270-310 | the pass computes the fold that the cutting lemmas are about |
| CfgBuilder.ScanAllCuts | compiler/src/cfg.rs:270-310 | the blocks cut the list into maximal straight pieces, in order, each with the terminator its last statement demands |
| CfgBuilder.ScanAllLabels | compiler/src/cfg.rs:270-310 | a label resolves to the block that starts at its last occurrence, and only defined labels resolve |
| CfgBuilder.Builder.Connect | compiler/src/cfg.rs:312-354 | one block gets its edges, in both directions |
| CfgBuilder.Builder.SecondPass | compiler/src/cfg.rs:312-354 | every block gets the successors of its terminator, and predecessor lists mirror them |
| CfgBuilder.Builder.Build | compiler/src/cfg.rs:247-267 | the result is the graph of the list; exits are the blocks without successors or with Return |
| CfgMeaning.BlocksPartitionTheStatements | compiler/src/cfg.rs:270-310 | the blocks, read in order, are the statement list: every statement is in one block, once |
| CfgMeaning.FollowsExactly | compiler/src/cfg.rs:270-375 | control flow spelled out: a jump goes to the last label of its name, a branch to that of either name, any other statement to the next |
| CfgMeaning.ExecutionsAreWalks | compiler/src/cfg.rs:247-375 | a statement sequence is an execution iff it is covered by a walk and ends in its last block |
| CfgMeaning.CompleteExecutionsAreExitWalks | compiler/src/cfg.rs:247-375 | a sequence is a complete execution iff some entry-to-exit walk visits exactly it |
| CfgPaths.AllPaths | compiler/src/cfg.rs:128-159 | terminates on every graph and returns, as a set, exactly the repetition-free entry-to-exit paths |
| CfgPaths.WalkContainsSimplePath | compiler/src/cfg.rs:137-142 | every looping walk to an exit contains a simple path to it |
| CfgPaths.PushAll | compiler/src/cfg.rs:150-154 | one stack item per successor, each with its own longer path |
| WritesOutput.CreditNode | compiler/src/semantic/mod.rs:464-515 | one statement credits exactly the outputs it writes, binds or passes to a CALL |
| WritesOutput.CreditArgs | compiler/src/semantic/mod.rs:493-500 | outputs passed as arguments are credited |
| WritesOutput.CreditNames | compiler/src/semantic/mod.rs:508-514 | outputs a CALL is redirected into are credited |
| WritesOutput.CreditPath | compiler/src/semantic/mod.rs:387-515 | along a path exactly the outputs are collected that some visited statement writes |
| WritesOutput.UnwrittenOutputs | compiler/src/semantic/mod.rs:373-567 | reported iff the guarantee is declared and some simple path never writes the output |
| WritesOutput.SimplePathsDecideExecutions | compiler/src/semantic/mod.rs:387-567 | some simple path misses the output iff some complete execution, looping at will, misses it |
| WritesOutput.CheckWritesOutput | compiler/src/semantic/mod.rs:365-567 | builder and check together: an output is reported iff some complete execution never writes it |
| WritesOutput.WhatWrites | compiler/src/semantic/mod.rs:446-515 | case by case: a STORE or SET writes its target, a CALL the names it binds and the variables passed to it, an assigned CALL the latter; nothing else writes |
| WritesAgree.WritesDiffer | compiler/src/semantic/mod.rs:446-515 | on any execution this check sees a write iff the dataflow pass sees one or some CALL receives the output |
| WritesAgree.ReportsDiffer | compiler/src/cfg.rs:421-443 | so its reports are misses for the dataflow pass too, and the same if no CALL receives the output |
| WritesAgree.ApplyLaw | compiler/src/cfg.rs:421-443 | which statements make a name live, freed, written or initialized, case by case |
| Termination.Reachable | compiler/src/cfg.rs:169-181 | exactly the blocks reachable from the entry |
| Termination.Sweep | compiler/src/cfg.rs:187-196 | one backward sweep is sound, and complete when it changes nothing |
| Termination.CanExitSet | compiler/src/cfg.rs:183-197 | exactly the blocks from which an exit can be reached |
| Termination.AllPathsTerminate | compiler/src/cfg.rs:168-201 | true iff every reachable block can reach an exit |
| Termination.StructuralMeansNeverTrapped | compiler/src/cfg.rs:161-168 | that holds iff every execution of the statement list can be continued to a complete one |
| Termination.CheckTermination | compiler/src/semantic/mod.rs:337-348 | builder and check together: accepted iff no execution can get trapped |
| DataFlow.MergePredecessors | compiler/src/cfg.rs:476-494 | merges the states of the known predecessors, in order |
| DataFlow.ApplyStatements | compiler/src/cfg.rs:496-502 | the statements of a block applied in order |
| DataFlow.RunAllocated | compiler/src/cfg.rs:421-443 | after any visits a handle is recorded as allocated iff some visit allocates it and no later one frees it |
| DataFlow.RunWritten | compiler/src/cfg.rs:421-443 | an output is recorded as written iff some visited STORE or SET targets it |
| DataFlowPass.UpdateBlock | compiler/src/cfg.rs:475-514 | one block's state is replaced, and the change flag is exact |
| DataFlowPass.SweepStates | compiler/src/cfg.rs:473-515 | one sweep; the flag says exactly whether it changed any state, and unchanged states are a fixpoint |
| DataFlowPass.Iterate | compiler/src/cfg.rs:463-515 | the states after between 1 and 1000 sweeps; the flag is left set exactly if no sweep within the bound leaves the states as they are, and then all 1000 were made |
| DataFlowPass.CollectExits | compiler/src/cfg.rs:517-535 | exactly the leaks and missing outputs of the exit blocks |
| DataFlow.FixpointCoversWalks | compiler/src/cfg.rs:407-515 | any fixpoint contains every handle allocated and not freed along any walk, whatever the entry looks like |
| DataFlowSweeps.SweepsCoverMay | compiler/src/cfg.rs:466-515 | after n sweeps, converged or not, the allocations along every path of at most n blocks are in the state of its last block |
| DataFlowSweeps.SweepsCoverMust | compiler/src/cfg.rs:466-515 | after n sweeps the must-facts are true of every walk of at most n blocks, if the entry has no predecessor or is one of its own |
| DataFlowSweeps.EntryDecidesMustFacts | compiler/src/cfg.rs:407-515 | for a graph shape: the must-facts are true of every walk for all block contents iff the entry has no predecessor or is one of its own |
| DataFlowSweeps.EnoughForLeaks | compiler/src/cfg.rs:421-515 | after as many sweeps as there are blocks, or when converged, every leak along a walk, however it loops, is in the state of its last block |
| DataFlowSweeps.EnoughForMisses | compiler/src/cfg.rs:407-515 | likewise, the entry being alone, for every output that a walk misses |
| DataFlowReports.SweepsTraced | compiler/src/cfg.rs:421-515 | after any number of sweeps, an allocation in the state of a block to which no unreachable block leads is made by some walk |
| DataFlowReports.StrayExitsDecideLeaks | compiler/src/cfg.rs:455-523 | for a graph shape: the leaks in the exit states are real for all block contents and sweep counts iff no unreachable block leads to an exit |
| DataFlowReports.SweepsTraceMisses | compiler/src/cfg.rs:407-515 | after any number of sweeps: what the state of a block does not claim some walk does not write, if every block that leads to it other than through the first has an earlier predecessor |
| DataFlowReports.RootedExitsDecideMisses | compiler/src/cfg.rs:455-533 | for a graph shape: what an exit state misses some walk to that exit misses, for all block contents and sweep counts, iff every block that leads to an exit other than through the entry has an earlier predecessor |
| DataFlowReports.ForwardDecidesMisses | compiler/src/cfg.rs:407-515 | the same for the states of all blocks: what a state misses some walk misses, for all block contents and sweep counts, iff every block but the first has an earlier predecessor |
| DataFlowConvergence.EnoughSweepsAreExact | compiler/src/cfg.rs:463-515 | forward graph, entry alone, as many sweeps as blocks: the states claim exactly the outputs that every walk to the block writes and the handles that some walk leaves allocated |
| DataFlowConvergence.SweepsShadow | compiler/src/cfg.rs:421-443 | initialized and freed names are what outputs and handles are for a rewritten statement list, sweep by sweep |
| DataFlowConvergence.ForwardSettles | compiler/src/cfg.rs:463-515 | forward graph, entry alone: after as many sweeps as there are blocks nothing changes any more |
| DataFlowConvergence.ForwardConverges | compiler/src/cfg.rs:463-515 | so the loop converges within its bound if there are fewer than 1000 blocks |
| DataFlowConvergence.OnwardConverges | compiler/src/cfg.rs:455-515 | the same for statement lists in which every statement but the first may follow an earlier one and nothing leads back to the first but the straight piece it begins |
| DataFlowExamples.LoopToStartFoolsTheAnalysis | compiler/src/cfg.rs:476-494 | a program and its built graph: from two sweeps on, the exit state claims an output that some complete execution never writes |
| DataFlowExamples.SweepsMayNeverConverge | compiler/src/cfg.rs:466-515 | a program and its built graph, entry without predecessors and all blocks reachable, on which every sweep changes the states; one block has no earlier predecessor |
| DataFlowExamples.ForwardMayNeverConverge | compiler/src/cfg.rs:466-515 | a program and its built graph, every block but the first with an earlier predecessor, on which every sweep changes the states; the entry is not alone |
| DataFlowExamples.ReportMayBeFalse | compiler/src/cfg.rs:525-533 | a program and its built graph on which, after any number of sweeps, an output is reported that every complete execution writes |
| DataFlowPass.AnalyzeDataFlow | compiler/src/cfg.rs:455-538 | over all walks: with at most 1000 blocks, or if the sweeps converge, every leak is reported, and every missed output if the entry is alone; every reported leak is real if no unreachable block leads to an exit, every reported output if every block that leads to an exit other than through the entry has an earlier predecessor |
| DataFlowPass.EntryAloneMeans | compiler/src/cfg.rs:247-375 | the built entry is alone iff no statement leads back to the first, or the straight piece it begins does |
| DataFlowPass.OnwardMeansForward | compiler/src/cfg.rs:247-375 | every built block but the first has an earlier predecessor iff every statement but the first may follow an earlier one |
| DataFlowPass.AnalyzeProgram | compiler/src/cfg.rs:455-538 | builder and pass together, the same about the executions of a statement list: complete with at most 1000 statements or if the sweeps converge; leaks real if no dead statement leads to the end, outputs if every statement that leads to it other than through the first may follow an earlier one |
| Kahn.Sort | compiler/src/graph/validate.rs:147-167 | outputs each node that no cycle leads into once, sources first, and no other; exactly the others keep a positive counter, and no counter goes below zero |
| Kahn.Zeros | compiler/src/graph/validate.rs:146-151 | the initial queue is the nodes without incoming edges |
| Kahn.Release | compiler/src/graph/validate.rs:156-165 | each target's counter drops by its occurrences and those that reach zero are queued, once |
| GraphCycles.NameGraph | compiler/src/graph/validate.rs:127-143 | adjacency lists and counters represent the local REQUIRES relation |
| GraphCycles.IdGraph | compiler/src/graph/validate.rs:241-257 | the same by node id, from dependency to dependent |
| GraphCycles.CheckCircular | compiler/src/graph/validate.rs:126-184 | an error iff the local REQUIRES graph has a cycle; it lists once each the behaviors on or below a cycle |
| GraphCycles.TopologicalSort | compiler/src/graph/validate.rs:240-291 | Ok iff there is no cycle, then a permutation of all local nodes with dependencies first; Err names exactly the behaviors that wait on a cycle |
| GraphCycles.CyclesAgree | compiler/src/graph/validate.rs:126-291 | with unique names the name-keyed and the id-keyed graph have cycles at the same time |
| GraphCycles.ReportIsCycleExactly | compiler/src/graph/validate.rs:168-182 | the reported list is exactly the behaviors on cycles iff no behavior on a cycle requires a local one that is on none |
| GraphCycles.InnocentBehaviorIsListed | compiler/src/graph/validate.rs:168-182 | a graph in which a behavior on no cycle is listed |
| GraphCycles.RequiresExactly | compiler/src/graph/validate.rs:131-141 | an edge for every name in a clause that some behavior of the graph has, its own included |
| GraphCycles.PrecedesExactly | compiler/src/graph/validate.rs:249-257 | an edge from the first behavior of each name in a clause |
| GraphCycles.DependenciesFirst | compiler/src/graph/validate.rs:240-291 | in a compilation order the first behavior of each required name has an earlier position |
| Purity.FindImpure | compiler/src/graph/validate.rs:194-230 | finds an impure behavior in the REQUIRES closure iff there is one |
| Purity.Lookup | compiler/src/graph/validate.rs:205-217 | local behaviors shadow libraries, undefined names are passed over |
| Purity.ImpureExactly | compiler/src/graph/validate.rs:205-217 | a name is impure iff the first local behavior of that name lacks the guarantee, or there is none and the library contract of that name lacks it |
| Purity.DepsExactly | compiler/src/graph/validate.rs:205-217 | its dependencies are those of that behavior; a library contract has none |
| ProjectGraph.FindNode | compiler/src/graph/mod.rs:465-472 | the first node of that name, none only if there is none |
| Purity.CheckPurity | compiler/src/graph/validate.rs:188-232 | one entry per violating behavior, each naming a real culprit; none iff no pure behavior requires a name whose first local behavior, or else library contract, is not pure |
| Purity.TransitiveIsLocal | compiler/src/graph/validate.rs:186-232 | the graph passes iff no pure behavior directly requires a resolvable impure one |
| Consumption.CollectPlaces | compiler/src/semantic/mod.rs:1789-1807 | appends the places an expression mentions |
| Consumption.AddSinkPlaces | compiler/src/semantic/mod.rs:1809-1815 | the places of an expression become live |
| Consumption.Gather | compiler/src/semantic/mod.rs:217-309 | sinks, assignment wires, obligations and dropped outputs of all statements |
| Consumption.SweepWires | compiler/src/semantic/mod.rs:313-325 | one sweep only adds places that reach a sink, and closes the set when it adds none |
| Consumption.SinkNode | compiler/src/semantic/mod.rs:228-309 | the places in consuming positions of a statement become live |
| Consumption.OutputsOfNode | compiler/src/semantic/mod.rs:230-280 | the outputs a statement binds and those a bare CALL drops |
| Consumption.Propagate | compiler/src/semantic/mod.rs:311-326 | terminates with exactly the places from which a chain of assignments leads to a sink |
| Consumption.CheckOutputsConsumed | compiler/src/semantic/mod.rs:216-335 | E0511 iff dropped by a bare CALL, or no chain carries the output (or its whole variable) to a sink |
| Consumption.VerdictIgnoresOrder | compiler/src/semantic/mod.rs:311-335 | reordering the statements moves the reports with them and changes none |
| Mentions.PlacesExactly | compiler/src/semantic/mod.rs:1789-1807 | one field of a variable is mentioned iff that field access occurs where the check looks, the whole variable iff it occurs there other than as the base of a field |
| Mentions.SinksExactly | compiler/src/semantic/mod.rs:228-309 | a place is a sink iff some statement uses it: statement kind by statement kind |
| Mentions.CarriesExactly | compiler/src/semantic/mod.rs:282-286 | a place is carried on iff an assignment of no CALL or SPAWN mentions it |
| Mentions.OwesExactly | compiler/src/semantic/mod.rs:248-277 | which outputs a statement has to see consumed: names bound by a CALL other than own outputs, fields of an assigned CALL |
| Mentions.DropsExactly | compiler/src/semantic/mod.rs:234-249 | a CALL that binds nothing drops exactly the outputs of its callee |
| Mentions.FieldIsDueExactly | compiler/src/semantic/mod.rs:216-335 | output g of a CALL assigned to x is reported iff no chain carries x.g or x to a sink |
| Mentions.NameIsDueExactly | compiler/src/semantic/mod.rs:216-335 | a bound name is reported iff no chain carries the whole variable to a sink |
| Mentions.UnmentionedIsDue | compiler/src/semantic/mod.rs:311-335 | x.g is reported whenever no statement mentions x.g or the whole of x, whatever is mentioned of other fields |
| Mentions.UsedIsNotDue | compiler/src/semantic/mod.rs:228-335 | x.g is not reported if some statement uses x.g or the whole of x |
| HashPreImage.Hasher.FeedContract | compiler/src/hash.rs:22-53 | the updates in order feed exactly the pre-image |
| HashPreImage.Hasher.FeedParameters | compiler/src/hash.rs:27-31 | name, type byte and eight size bytes of each parameter |
| HashPreImage.Hasher.FeedReferences | compiler/src/hash.rs:43-47 | name, at sign and pin of each reference |
| HashPreImage.Hasher.FeedGuarantees | compiler/src/hash.rs:51-53 | one byte for each guarantee |
| HashPreImage.PreImageInjective | compiler/src/hash.rs:22-77 | equal pre-images imply equal inputs, outputs, references and guarantees (everything but MEMORY), for names over the identifier alphabet and pins of one common length |
| HashPreImage.MixedPinsCollide | compiler/src/hash.rs:43-47 | for any two lengths there are two different contracts with the same pre-image |
| HashPreImage.InjectiveExactlyForOneLength | compiler/src/hash.rs:22-77 | the pre-image identifies contracts iff pins of only one length may occur |
| HashPreImage.ParameterByteByByte | compiler/src/hash.rs:27-31 | name, type byte 1 to 4, and the size as eight bytes with the least significant first |
| HashPreImage.ReferenceByteByByte | compiler/src/hash.rs:43-47 | name, at sign, hash |
| HashPreImage.GuaranteeByteByByte | compiler/src/hash.rs:70-77 | byte 1 to 3 for each guarantee |
| HashPreImage.ParametersInOrder | compiler/src/hash.rs:26-31 | parameters are fed in their order |
| HashPreImage.ReferencesInOrder | compiler/src/hash.rs:42-47 | references are fed in their order |
| HashPreImage.HeadingsByteByByte | compiler/src/hash.rs:25-53 | the four headings byte by byte, and which section follows each |
| Lexer.LexerObject.constructor | compiler/src/lexer.rs:234-248 | the initial state, a byte-order mark stripped |
| Lexer.LexerObject.Advance | compiler/src/lexer.rs:255-267 | one character is consumed; a line break sets the line-start flag |
| Lexer.LexerObject.ReadWhile | compiler/src/lexer.rs:270-298 | the longest run of characters of a kind is consumed |
| Lexer.LexerObject.ScanToken | compiler/src/lexer.rs:606-667 | the token that starts with the given character |
| Lexer.LexerObject.ReadNumberToken | compiler/src/lexer.rs:300-376 | decimal, hexadecimal and float literals, with their 64-bit range checks |
| Lexer.LexerObject.ReadStringToken | compiler/src/lexer.rs:380-424 | string literals with their escapes and errors |
| Lexer.LexerObject.NextToken | compiler/src/lexer.rs:559-667 | indentation, blanks, comments and every kind of token, as the token function says |
| Lexer.Tokenize | compiler/src/lexer.rs:687-701 | the token loop stops at Eof or the first error |
| Literals.HexLiteral | compiler/src/lexer.rs:310-365 | for every number: its hexadecimal numeral, in small or capital digits, is read as the number, from 2^63 on as negative, from 2^64 on as an error |
| Literals.DecimalLiteral | compiler/src/lexer.rs:329-376 | for every number: its decimal numeral is read as the number below 2^63 and is an error from there on |
| Literals.NegativeLiteral | compiler/src/lexer.rs:641-653 | the same behind a minus sign, down to -2^63 |
| Literals.FloatLiteral | compiler/src/lexer.rs:329-342 | digits with one point are a float literal |
| Literals.StringLiteral | compiler/src/lexer.rs:380-424 | every text, escaped and quoted, is read back |
| Literals.BadString | compiler/src/lexer.rs:385-420 | unclosed strings, line breaks in strings and other escapes are errors |
| Literals.QuoteToken | compiler/src/lexer.rs:621-631 | a quote begins a string, and in a DESCRIPTION is text |
| Literals.SignTokens | compiler/src/lexer.rs:633-639 | the token of each sign |
| Literals.MinusTokens | compiler/src/lexer.rs:641-651 | an arrow, a negative number, or a minus sign by itself |
| Literals.IndentToken | compiler/src/lexer.rs:565-594 | the width counts blanks once and tabs twice; blank lines have none |
| Literals.BlanksSkipped | compiler/src/lexer.rs:596 | blanks, tabs and carriage returns inside a line are no tokens |
| Literals.CommentSkipped | compiler/src/lexer.rs:609-619 | a comment runs to the end of its line |
| Literals.DescriptionEnds | compiler/src/lexer.rs:655-677 | a DESCRIPTION lasts until one of nine keywords in the first column |
| Parser.ParserObject.ExpectHexString | compiler/src/parser.rs:97-135 | a hash from one or two tokens, padded and lowered |
| Parser.ParserObject.ExpectParameter | compiler/src/parser.rs:366-380 | name, type and size; a string may leave the size out |
| Parser.ParserObject.ExpectReferences | compiler/src/parser.rs:401-419 | pinned and unpinned references |
| Parser.ParserObject.ExpectRequires | compiler/src/parser.rs:381-399 | each further line of references replaces the ones before |
| Parser.ParserObject.ExpectGuarantees | compiler/src/parser.rs:421-446 | the guarantee words up to the first other token |
| Parser.ParserObject.ExpectContract | compiler/src/parser.rs:319-364 | clauses in any order up to the first other token |
| Parser.ParserObject.ExpectClause | compiler/src/parser.rs:331-360 | what one clause adds to the contract; a REQUIRES clears the MEMORY names before it |
| Parser.ParserObject.ExpectNames | compiler/src/parser.rs:352-358 | the names of a MEMORY clause |
| Parser.ParserObject.ExpectBehavior | compiler/src/parser.rs:176-251 | the sections of a registry entry |
| References.MixedParse | compiler/src/parser.rs:401-419 | every list of references, pinned and unpinned in any mixture, in which no pin swallows a name is read back as that list |
| References.LastLineCounts | compiler/src/parser.rs:381-399 | of a clause of several lines the last line counts |
| References.LastClauseCounts | compiler/src/parser.rs:342-346 | of several REQUIRES clauses the last counts, and clears the MEMORY names before it |
| References.RequiresReadBack | compiler/src/parser.rs:319-419 | from the text on: a contract with any number of REQUIRES lines requires exactly the references of the last, in order, with empty hashes for unpinned ones |
| Clauses.SizeLeftOut | compiler/src/parser.rs:366-380 | only a string may leave its size out, which then is 0 |
| Clauses.SizeGiven | compiler/src/parser.rs:366-380 | the four type words and every signed 64-bit size, negative ones counting from 2^64 down |
| Clauses.MemoryAdds | compiler/src/parser.rs:352-358 | a MEMORY clause adds its names in order |
| Clauses.HashLowered | compiler/src/parser.rs:97-135 | a hash in either case is read as the same digits in small letters, padded to eight |
| Clauses.GuaranteeWords | compiler/src/parser.rs:421-446 | the three guarantee words, and that any other token ends the list |
| Clauses.ClauseChanges | compiler/src/parser.rs:331-360 | what each clause word changes in the contract |
| LexedText.ShownLosesZeros | compiler/src/parser.rs:110-112 | reading digits and printing the number loses exactly the leading zeros |
| LexedText.HexIsNoKeyword | compiler/src/lexer.rs:432-554 | no keyword can be mistaken for a hash or the tail of one |
| Registry.BlockTokens | compiler/src/main.rs:558-604 | the exact tokens of a printed entry, for all identifier names, 8-digit pins and sizes below 2^63 |
| Registry.BlockIsNoText | compiler/src/main.rs:571-579 | with a size of 2^63 or more the printed entry is a lexical error |
| RoundTrip.FinishRestores | compiler/src/parser.rs:122-132 | padding restores a hash that was split into integer and identifier |
| RoundTrip.PinParses | compiler/src/parser.rs:97-135 | every 8-digit pin is read back, unless it is all digits and a hexadecimal name follows |
| RoundTrip.AmbiguousStops | compiler/src/parser.rs:401-419 | in that case the reference list ends before an @ |
| RoundTrip.BlockRoundTrip | compiler/src/main.rs:558-604 | printing, lexing and parsing gives back name, contract (but for MEMORY, which is not printed) and hash iff the references are not ambiguous and no size is 2^63 or more, and an error otherwise |
| RoundTrip.ReadEntry | compiler/src/main.rs:692-695 | the lexer and parser objects read a block as the functions say |
| LostEntries.NegativeSizeIsLost | compiler/src/parser.rs:371-377 | the text of a contract with the size -1: it is read as 2^64 - 1, printed, and cannot be read again |
| LostEntries.NameIsSwallowed | compiler/src/parser.rs:97-119 | for every pin of digits only and every hexadecimal name after it: the contract text is read as one reference whose pin ends in the name, and the name is not required |
| LostEntries.DigitPinIsLost | compiler/src/parser.rs:401-419 | at p@12345678 add; and a registry entry with these two references, both pinned, is printed and cannot be read again |
| RegistryFile.PrintRegistry | compiler/src/main.rs:558-604 | the loops of push_str write the registry text |
| RegistryFile.PrintContract | compiler/src/main.rs:571-600 | the lines of a contract |
| RegistryFile.LoadContracts | compiler/src/main.rs:678-715 | the search for blocks and the map of contracts, unreadable blocks passed over |
| RegistryFile.ClosingFound | compiler/src/main.rs:688-691 | the first line starting with END is the end of the block, for no printed line begins with an E |
| RegistryFile.RegistryRoundTrip | compiler/src/main.rs:558-715 | writing and loading a registry with distinct names gives back each contract iff it is neither ambiguous nor oversized, and drops it otherwise |

## Left out

- LLVM code generation, linking, and the file, network, console, time and OS parts of the runtime: foreign calls and I/O.
- Diagnostics, source positions, rendering, the command line and file discovery.
- SHA-256: only the bytes fed to it are modelled.
- Double-free, use-after-free, uninitialized-load and leak verdicts of `validate_ownership_cfg`: the enumeration drops every path that revisits a block, so on graphs with loops they are not exact.
- `flatten_scopes`: its output is the statement list the models start from.
- Termination of `sigil_runtime_shutdown`: it can hang, see above.
- Channel handles, `sigil_channel_destroy` and malloc failure paths.
- `sigil_wait_all`: a sequence of WAITs by one thread, and so covered by the runs; its loop and the copying of results are not modelled.
- A second child under a scope that still has an open child: the allocator's LIFO rule (`runtime/src/memory.c:25`) is a precondition.
- Incremental builds, graph edges and gap detection.
- Registry DESCRIPTION text and the other sections of a behavior (the parser model rejects DESCRIPTION, IMPLEMENTATION and COMPOSITION).
- SharedWaits.SafeExactlyIfCareful: the if-and-only-if is not stated for a call on a task whose worker is itself waiting, or for a queued one when every other worker is waiting or has exited: such a task may never complete (as in SelfWaitNeverEnds) or may after another task does. That careful calls are safe (CarefulWaitersAreSafe) holds there too.
- DataFlowConvergence.ForwardConverges: sufficient for convergence, not necessary.
- DataFlowPass.AnalyzeDataFlow: completeness is not promised for a graph of more than 1000 blocks on which the sweeps do not converge.
- Parser.ParserObject.ExpectBehavior: rejects the sections that a registry entry does not have.
- HashPreImage.PreImageInjective: names and pins are ASCII, as identifiers and hexadecimal digits are; UTF-8 encoding of other text is not modelled.
- GraphCycles.TopologicalSort: node ids are distinct and equal to their keys, as the hash map of nodes guarantees.
- FloatLit tokens keep their text; conversion to floating point is not modelled.
