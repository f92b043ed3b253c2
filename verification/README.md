# Verified model of the vage orchestration core

vage runs graphs of agent calls. This project models the parts of it whose correctness
is hard to see from one function body, and proves what they promise:

- **the DAG engine** (`orchestrate/`): validation, Kahn sort, critical path, priority queue, the event loop
  with skips, optional failures, abort, forward recovery, saga rollback, early exit, cancellation and resume;
- **the admission controllers** a launched node passes: AIMD backpressure, ordered resource slots, token bucket;
- **the call-path controllers** (`largemodel/`): circuit breaker and sliding-window rate limiter;
- **two pieces of memory**: the session log under zero-padded keys, and the token budget of summaries.

`dafny verify dfyconfig.toml` checks everything.

## How the engine is modelled

`Executor.DagExecutor` has the fields of `dagExecutor` and a method for each of its methods. A launched goroutine is an
entry of `inFlight`; sending its completion is a step of the environment, taken at any time while the loop waits, and the
caller may cancel the context in the same places. Which goroutine sends next, and when the cancellation comes, is an
arbitrary choice (`:|` and `*`), so every contract of `Run` holds for every completion order. Runners, conditions,
mappers, compensators, aggregators and the early-exit test are arbitrary functions of their arguments. A runner also
sees the number of the attempt, so it may fail and then succeed.

The reference is `Semantics.Sequential`: one pass over the nodes in a topological order that computes a verdict for each
(done with a response, skipped, failing, or blocked behind a failure). `EngineState.Inv` says at every point of a run that

- each in-degree is the number of dependency occurrences not settled yet, plus the decrements still owed;
- `pending` is the number of Pending and Running nodes, and results exist exactly for Done nodes;
- each Running node has settled dependencies and owes exactly one completion, in flight or queued, never both;
- the ready queue holds exactly the pending nodes with in-degree zero;
- everything recorded, in flight or queued is what the reference says.

What the reference itself means is said without its functions: `Meaning.VerdictMeans` gives the verdict on a node by its
dependencies' verdicts, its condition, its mapper or the cuts at which the dependencies' messages are joined, and the first
successful attempt; `DagRun.CompletedMeans` says the same of the statuses and results of a completed run.

The loop's termination is part of the proof of `Run`: every event makes `pending` smaller, and while it is positive some
goroutine is in flight or has sent (`EngineState.Progress`). Each send on `doneCh` asserts a free slot
first, so the sends made under the mutex do not block, and the drain of each exit path leaves nothing behind.

The preconditions of the engine's methods and lemmas are met by real runs: `DagRun.ExecuteDAG` has none, and it and
`DagRun.KillAndResume` call `NewDagExecutor`, `Run` and `RunPrefix`, which establish all the others.

A run killed in the middle is `RunPrefix(k)`: the state after k events. Only `saveCheckpoint` touches the store, so being
killed inside an event leaves the store of one of the two neighbouring event boundaries.

## What the code does that its comments do not say

- A cancelled context makes a node fail that would have succeeded. If that node is optional, or is recovered by forward
  recovery, the failure is absorbed and the run can still complete, with results that differ from an undisturbed run:
  `Cancellation.AbsorbedRunDeviates` is such a run. `FailStop`, that no node's failure is absorbed, rules it out
  (`DagRun.ExecuteDAG`), and the condition is exact over all runners of launched nodes (`Cancellation.FailStopIff`); a
  node that is never launched, because of its condition or mapper, does no harm.
- A backpressure waiter that is cancelled after a slot was handed to it never gives the slot back
  (`orchestrate/backpressure.go:91-101`). With latencies of at least zero and a clock that does not go back, no grant is
  ever possible again if and only if the lost slots reach all of the following (`Backpressure.NeverGrantsIff`): the
  current limit; with h > 0 slots held or on their way, the limit that halving it now and raising it by each of h - 1
  further releases leads to; and for every k from 1 to h such that k releases that took no time bring the average down
  to the threshold, the limit that raising it by the k-th and by each later release leads to. A negative threshold rules
  out raising, and no limit exceeds the maximum. All waiters of a controller share the context of one run, so slots get
  lost only once that run is cancelled.
- The pause computed by the token bucket is truncated to nanoseconds. It is enough if and only if the exact pause is a
  whole number of nanoseconds or at most the millisecond minimum (`TokenBuckets.PauseSufficesIff`); with three tokens
  per second it is not (`TokenBuckets.TruncatedPauseFails`). The next pause is enough (`SecondPauseSuffices`). With a
  rate below one token per second nothing is ever granted, because the capacity equals the rate (`GrantsIffRate`).
- A tag listed twice on one node is acquired twice, and a node that waits for tokens of a bucket with a rate below one
  keeps its slots for ever. A deadlock is reachable if and only if there is such a node, or some group of nodes fits
  below a lock all at once and can then take all its slots while each still needs one more (`Locks.DeadlockIff`): a node
  that names a tag more often than its limit is enough (`LoneWorkerStuckIff`, `RepeatedTagDeadlocks`), and so are two
  nodes that name a tag of limit two twice, though neither blocks alone (`TwoNodesDeadlock`).
- A request refused for its tokens still takes a place in the request window. So a refusal for the number of requests
  means that so many were admitted in the last minute if and only if tokens are not limited
  (`RateLimit.RefusesFairlyIff`).
- Beyond a million messages the padded keys no longer sort in order (`MessageKeys.KeysOrderedIff`, `MillionthKey`).
- Dead branches: the replay branch of `scheduleReady` (dag.go:411-417), the second wake-up in `release`
  (backpressure.go:122-127) and `maxLen <= 0` in `Compress` (compressor_summarize_trunc.go:139-141). The methods keep
  them and show that they are not reached.

## Model

| member | source | states |
|---|---|---|
| `DagRun.ExecuteDAG` | orchestrate/dag.go:31-47 | for every completion order: rejects exactly the invalid graphs; otherwise statuses, results and output are those of the sequential evaluation in any topological order, a failure is the reference's, and only a cancellation together with an absorbed failure can deviate; a failed run under a compensation strategy has been rolled back |
| `DagRun.Confluence` | orchestrate/dag.go:230-508 | two runs from the same saved results, without cancellation and early exit, whatever their completion orders, concurrency limits and scheduling modes, both complete with equal statuses, results and output, or both fail, as the reference has a failing node or not |
| `DagRun.CompletedMeans` | orchestrate/dag.go:407-442 | in a completed run every node is Done with its saved response; or Skipped if its condition is false of its dependencies' recorded results; or, on the mapped, original or joined input, Done with the first success of its own or its recovery attempts, or Skipped if it is optional and none succeeded |
| `DagRun.OutputMeans` | orchestrate/dag.go:473-508 | the output is the configured aggregator's, or the messages joined in key order, for the results of exactly the completed nodes nobody depends on, or of all completed nodes if none of those is completed |
| `Meaning.VerdictMeans` | orchestrate/dag.go:405-442 | the reference's verdict on every node in terms of its dependencies, condition, input, attempts and failure strategy alone; blocked behind a failing or blocked dependency |
| `Meaning.ConditionDecides` | orchestrate/dag.go:419-432 | a node whose condition is false of its dependencies' results is skipped; one whose condition is true or missing is skipped only if it is optional |
| `Meaning.NodeInputMeans` | orchestrate/dag.go:593-636 | the input is the mapper's; or the original request; or, under the original session, options and metadata, the dependencies' messages cut one after the other in the order of declaration |
| `Meaning.FirstSuccessMeans` | orchestrate/dag.go:552-581 | an outcome is the response of the first attempt in its range that returns one, and none exactly if none does |
| `DagRun.KillAndResume` | orchestrate/dag.go:98-106 | any number of runs, each killed after any number of events and started with the checkpoints saved by then, and a last one that finishes: it conforms to the evaluation of the first; cancelled runs among them are harmless if no failure is absorbed |
| `DagRun.ResumeFromAnySubset` | orchestrate/dag.go:151-163 | a run started from any correct checkpoints, of a node but not of its dependencies included, conforms to the evaluation from nothing |
| `DagRun.PrefixTransparent` | orchestrate/dag.go:151-163 | what a run has saved at any point leaves every verdict of the reference unchanged |
| `DagRun.NewDagExecutor` | orchestrate/dag.go:114-227 | the loaded state satisfies the engine invariant with every node still to be enqueued; the queue exists exactly in priority mode and the plan carries critical-path priorities exactly if asked for |
| `DagRun.ApplyCriticalPath` | orchestrate/dag.go:119-127 | a node of priority 0 gets the node count of the longest path through it; the others keep theirs, and nothing else changes |
| `DagRun.LoadCheckpoints` | orchestrate/dag.go:147-163 | exactly the saved nodes of this graph are Done with their saved response, the others Pending |
| `DagRun.CountPending` | orchestrate/dag.go:204-209 | the pending counter is the number of Pending nodes |
| `DagRun.SettleSaved` | orchestrate/dag.go:211-218 | in-degrees count the dependency occurrences that were not restored, for any subset of restored nodes |
| `DagRun.TerminalNodes` | orchestrate/dag.go:136-141 | exactly the nodes nobody depends on |
| `DagRun.Finalize` | orchestrate/dag.go:473-508 | the configured aggregator, or concatenation, over the completed terminal nodes, or over all completed nodes if there are none |
| `DagRun.CompletedIsReference` | orchestrate/dag.go:269 | a run that settled every node has exactly the reference's statuses and results, and the reference has no failure |
| `DagRun.AnyOrder` | orchestrate/dag.go:230-270 | conforming to the evaluation in one topological order is conforming in each |
| `Semantics.SequentialSolves` | orchestrate/dag.go:396-442 | the sequential evaluation gives each node the verdict that its own dependencies' verdicts entail |
| `Semantics.SolutionUnique` | orchestrate/dag.go:396-442 | on an acyclic graph those local equations have one solution |
| `Semantics.OrderIndependent` | orchestrate/dag.go:396-442 | the evaluation does not depend on the topological order |
| `Semantics.ResumeTransparent` | orchestrate/dag.go:151-163 | starting with any further set of correct saved results, even without their dependencies, changes no verdict |
| `Semantics.SequentialPriority` | orchestrate/dag.go:120-127 | rewriting priorities changes no verdict |
| `Semantics.SequentialScheduling` | orchestrate/orchestrate.go:77-92 | concurrency limit, scheduling mode and replay mode change no verdict |
| `EngineState.LocalView` | orchestrate/dag.go:593-636 | a node whose dependencies are settled sees the reference's upstream results, so its reference verdict is the one computed from what is recorded |
| `EngineState.RunningCount` | orchestrate/dag.go:195 | goroutines in flight plus queued completions are the Running nodes, at most one per slot of the channel |
| `EngineState.Progress` | orchestrate/dag.go:230-270 | with work pending some node is Running, provided queued ready nodes wait only behind a Running one |
| `EngineState.InvSkip` | orchestrate/dag.go:419-432 | skipping a ready node keeps the invariant, its dependents' decrements now owed |
| `EngineState.InvLaunch` | orchestrate/dag.go:440-441 | launching a ready node keeps the invariant |
| `EngineState.InvStartError` | orchestrate/dag.go:434-439 | a node whose input cannot be built keeps the invariant with its error queued |
| `EngineState.InvDecrement` | orchestrate/dag.go:397-401 | one decrement pays one owed occurrence, never goes below zero, and never makes a queued node ready again |
| `EngineState.InvSend` | orchestrate/dag.go:519-585 | a goroutine's one completion, its own outcome or an error after a cancellation, keeps the invariant |
| `EngineState.InvReceive` | orchestrate/dag.go:243-245 | receiving a completion and settling its node keeps the invariant, decrements owed |
| `EngineState.HeadVerdict` | orchestrate/dag.go:275-286 | the received completion belongs to a Running node without result and carries the reference outcome, or an error after a cancellation |
| `Executor.BuildNodeInput` | orchestrate/dag.go:593-636 | mapper, original request, single dependency or concatenation in declaration order: there are cuts at which the messages split into those of each dependency with a result, and session, options and metadata are kept |
| `Executor.RunNode` | orchestrate/dag.go:552-584 | the response of the first non-nil success among attempts 0 to max(retries, 0), or an error if none succeeds or the context is cancelled |
| `Executor.CountRunning` | orchestrate/dag.go:682-690 | the number of Running nodes, whatever the map order |
| `Executor.DagExecutor.PropagateDownstream` | orchestrate/dag.go:396-403 | pays all decrements owed for a settled node and leaves no ready node out of the queue; only pending nodes change |
| `Executor.DagExecutor.EnqueueReady` | orchestrate/dag.go:445-451 | in priority mode the node is inserted behind its equals, else it is started or skipped at once |
| `Executor.DagExecutor.ScheduleReady` | orchestrate/dag.go:407-442 | a ready node becomes Running if it has no condition or that is true of its dependencies' recorded results, else Skipped; the replay branch is never taken; the recursion shrinks the pending set |
| `Executor.DagExecutor.SkipNode` | orchestrate/dag.go:424-431 | skips one node and settles the consequences, cascades included |
| `Executor.DagExecutor.StartNode` | orchestrate/dag.go:434-441 | exactly this node turns Running, and the error completion sent under the lock has a free slot |
| `Executor.DagExecutor.DrainPQ` | orchestrate/dag.go:455-470 | afterwards ready nodes wait only if the limit is reached, and activePQ is the Running count, never above a positive limit |
| `Executor.DagExecutor.LaunchBest` | orchestrate/dag.go:464-468 | only the head of the queue is scheduled: no ready node has a higher priority, and none with the same priority was queued earlier |
| `Executor.DagExecutor.GoroutineSends` | orchestrate/dag.go:519-585 | moves one completion from flight to the channel, which has room |
| `Executor.DagExecutor.DrainDoneCh` | orchestrate/dag.go:693-698 | receiving as many completions as nodes are Running terminates and leaves neither goroutine nor completion |
| `Executor.DagExecutor.HandleNodeSuccess` | orchestrate/dag.go:356-392 | ends exactly on the early-exit test or a cancelled context; otherwise back at the loop head |
| `Executor.DagExecutor.HandleNodeError` | orchestrate/dag.go:289-353 | ends the run exactly if the failure strategy says so; without compensation only this node's status changes; with compensation the completed nodes are rolled back |
| `Executor.DagExecutor.CompensateNode` | orchestrate/dag.go:295-333 | continues exactly if forward recovery succeeds, else rolls back from the state with the node Failed |
| `Executor.DagExecutor.FailRun` | orchestrate/dag.go:323-326 | marks exactly this node Failed, leaves no goroutine and no completion |
| `Executor.DagExecutor.RollBack` | orchestrate/dag.go:327 | the statuses are those of a rollback of the completed nodes |
| `Executor.DagExecutor.EndWith` | orchestrate/dag.go:256-265 | an early or cancelled end leaves no goroutine and no completion, and what was recorded follows the reference |
| `Executor.DagExecutor.SaveCheckpoint` | orchestrate/dag.go:99-106 | the session's entries gain exactly this node's response |
| `Executor.DagExecutor.ReceiveHead` | orchestrate/dag.go:243-279 | takes the oldest completion; pending and activePQ drop by one |
| `Executor.DagExecutor.HandleEvent` | orchestrate/dag.go:241-267 | one turn of the loop: ends, or back at the loop head with fewer pending nodes |
| `Executor.DagExecutor.Start` | orchestrate/dag.go:231-238 | every initially ready node is scheduled or queued once |
| `Executor.DagExecutor.Run` | orchestrate/dag.go:230-270 | terminates for every completion order with nothing in flight, the store mirroring the results, what was recorded following the reference, and each exit for its reason; each node is skipped or started at most once, and its completion handled at most once |
| `Executor.DagExecutor.RunPrefix` | orchestrate/dag.go:230-270 | after any number of events the store holds exactly the recorded results, and those are the reference's |
| `Executor.SomethingRuns` | orchestrate/dag.go:241-256 | at the loop head, in FIFO and in priority mode, pending work means a goroutine in flight or a completion to receive |
| `Executor.AllSettled` | orchestrate/dag.go:241 | no pending node means every node is settled and nothing is in flight |
| `Cancellation.FailStopIff` | orchestrate/dag.go:295-352 | an error that replaces a launched node's completion can change its verdict, for some runner, if and only if some node's failure is absorbed, as an optional skip or by forward recovery |
| `Cancellation.AbsorbingDeviates` | orchestrate/dag.go:348-352 | for every absorbing node a runner and a request on which a cancellation changes the verdict |
| `Cancellation.AbsorbedRunDeviates` | orchestrate/dag.go:230-353 | for every configuration and node with an absorbed failure a whole run of the graph of that node alone, launch, cancellation, error, absorption, that ends with nothing pending and a status or result other than the reference's |
| `Topo.BuildDagMaps` | orchestrate/topo.go:53-63 | each dependency occurrence appears once in the transposed lists, and in-degrees are dependency counts |
| `Topo.TopologicalSort` | orchestrate/topo.go:21-50 | emits each node at most once after its dependencies, and all nodes if and only if there is no cycle, repeated dependencies included |
| `Topo.KahnTake` | orchestrate/topo.go:38-41 | taking the head of the queue extends the topological prefix and leaves the rest of the frontier queued |
| `Topo.KahnLeftover` | orchestrate/topo.go:38-49 | nodes left over when the queue is empty wait for each other in a cycle |
| `Topo.KahnComplete` | orchestrate/topo.go:38-49 | all nodes emitted, no cycle, and being a topological order are the same |
| `Topo.DegreesSettle` | orchestrate/topo.go:38-47 | settling a node is balanced by one owed decrement per occurrence in its dependents |
| `Topo.DegreesDecrement` | orchestrate/topo.go:42-43 | a decrement pays one occurrence and finds a positive in-degree |
| `Topo.Roots` | orchestrate/topo.go:32-37 | the initial queue holds exactly the nodes without dependencies |
| `Topo.ReleaseDependents` | orchestrate/topo.go:42-47 | exactly the nodes whose dependencies are now all emitted join the queue, once |
| `Graph.WaitingSetIsCyclic` | orchestrate/topo.go:38-49 | a nonempty set in which each node waits for a member contains a cycle |
| `Graph.AcyclicHasOrder` | orchestrate/topo.go:20-50 | an acyclic closed graph has a topological order |
| `Graph.RankedIsAcyclic` | orchestrate/dag.go:638-679 | a ranking that grows along edges excludes cycles |
| `Graph.OpenSettle` | orchestrate/topo.go:42-43 | settling a dependency removes exactly its occurrences from the open ones |
| `Validate.CycleDetector.Visit` | orchestrate/dag.go:654-669 | blackens the node and everything reachable in finishing order, or reports a node on a cycle |
| `Validate.DetectCycle` | orchestrate/dag.go:638-679 | nil if and only if the graph has no cycle; the node it names lies on one |
| `Validate.CheckConnected` | orchestrate/orchestrate.go:276-315 | nil if and only if any two nodes are connected when edges are undirected; the node it names is not connected to the first |
| `Validate.ConnectedFromRoot` | orchestrate/orchestrate.go:290-306 | reaching all nodes from the first is reaching all nodes from each |
| `Validate.SearchEnd` | orchestrate/orchestrate.go:295-304 | when the queue is empty the visited nodes are exactly the component of the first |
| `Validate.ValidateDAG` | orchestrate/orchestrate.go:246-272 | nil if and only if IDs are unique, dependencies known, no cycle, and connected; an error names a true defect |
| `CriticalPath.ComputeCriticalPath` | orchestrate/priority.go:96-163 | every node's priority is the node count of the longest path through it, and the project end less its slack; no slack is negative, and along some source-to-sink path of the project's length all slacks are zero |
| `CriticalPath.ProjectEnd` | orchestrate/priority.go:124-130 | the project end is the greatest earliest finish |
| `CriticalPath.ForwardPass` | orchestrate/priority.go:113-122 | est + 1 is the longest path ending in the node |
| `CriticalPath.BackwardPass` | orchestrate/priority.go:132-152 | the project end minus lst is the longest path starting in the node |
| `CriticalPath.ThroughFromParts` | orchestrate/priority.go:154-160 | longest path in plus longest path out, less the node itself, is the longest path through |
| `CriticalPath.CriticalChain` | orchestrate/priority.go:154-156 | some source-to-sink path consists of nodes of top priority only, which is its length |
| `PriorityQueues.PriorityQueue.Push` | orchestrate/priority.go:58-80 | adds exactly one item with this priority, later than all before it, behind its equals in the list sorted by priority descending then insertion order |
| `PriorityQueues.PriorityQueue.Pop` | orchestrate/priority.go:66-86 | removes exactly the head of that list: no item has a higher priority, and none with the same priority came earlier |
| `PriorityQueues.PriorityQueue.Up` | orchestrate/priority.go:77-80 | sift-up restores the heap and keeps the items |
| `PriorityQueues.PriorityQueue.Down` | orchestrate/priority.go:83-86 | sift-down restores the heap on the first n items, keeps the items and touches nothing beyond |
| `PriorityQueues.InsertSorted` | orchestrate/priority.go:45-50 | insertion keeps the view sorted and adds exactly one item |
| `PriorityQueues.RootIsBest` | orchestrate/priority.go:45-50 | no item of a heap comes before its root |
| `PriorityQueues.HeadIsRoot` | orchestrate/priority.go:45-50 | the root of the heap is the head of the sorted view |
| `PriorityQueues.HeadIsBest` | orchestrate/priority.go:45-50 | the head of a sorted list has the highest priority, and the least insertion order among those with it |
| `PriorityQueues.UpStep` | orchestrate/priority.go:52-56 | one swap upwards moves the only violation to the parent |
| `PriorityQueues.DownStep` | orchestrate/priority.go:52-56 | one swap with the better child moves the only violation to the child |
| `Compensation.ExecuteBackwardCompensation` | orchestrate/compensate.go:62-111 | attempts each Done compensatable node with a result exactly once, every descendant before its ancestors; only successful ones change, to Compensated; nil if and only if every attempt succeeded |
| `Compensation.RollbackStatuses` | orchestrate/compensate.go:99-104 | a rollback changes no status except Done to Compensated, for eligible nodes only |
| `Compensation.RollbackSuccess` | orchestrate/compensate.go:107-110 | no compensation error if and only if all eligible nodes end Compensated |
| `Compensation.RollbackVisits` | orchestrate/compensate.go:65-97 | visited are exactly the nodes that were Done, are compensatable and have a result, each once, and none before a node that depends on it |
| `Compensation.RollbackMarks` | orchestrate/compensate.go:99-104 | exactly the nodes whose compensation succeeded become Compensated |
| `Compensation.RollbackCalls` | orchestrate/compensate.go:117-145 | calls stop at the first success; one call if not idempotent, else at most max(maxRetries, 0) + 1, and fewer without success only after a cancellation |
| `Compensation.ExecuteNodeCompensation` | orchestrate/compensate.go:114-147 | stops at the first success among the allowed attempts, maxRetries + 1 for an idempotent compensator with retries and one otherwise |
| `Compensation.NotIdempotentCalledOnce` | orchestrate/compensate.go:117-124 | a compensator that is not idempotent is called exactly once |
| `Compensation.CompletedReverse` | orchestrate/compensate.go:65-75 | exactly the Done nodes, each once, descendants before ancestors |
| `Compensation.ReverseIsDescendantsFirst` | orchestrate/compensate.go:68-75 | a reversed selection of a topological order never visits an ancestor before its descendant |
| `Compensation.ExecuteForwardRecovery` | orchestrate/compensate.go:150-182 | the first non-nil success among the max(maxRetries, 0) + 1 attempts that follow the node's own, or an error |
| `Aggregators.ConcatMessages` | orchestrate/aggregator.go:58-75 | for the keys in ascending order there are cuts at which the messages split into those of each response; session and metadata are those of the first response with a session, whatever the map order |
| `Aggregators.ConcatMeans` | orchestrate/aggregator.go:58-75 | the same of the function that the runs' outputs are compared with |
| `Aggregators.ConcatOutputIs` | orchestrate/aggregator.go:63-74 | the output is the fold over the one sorted listing of the keys |
| `Aggregators.KeyOrderUnique` | orchestrate/aggregator.go:63 | a set of keys has only one sorted listing |
| `Lex.SortedUnique` | agent/taskagent/task.go:291-293 | items with distinct keys can be sorted in one way only |
| `Lex.LtMeans` | orchestrate/aggregator.go:63 | a string comes before another exactly if at the first difference it ends or has the smaller byte |
| `Checkpoints.InMemoryCheckpointStore.Save` | orchestrate/checkpoint.go:53-61 | sets one node of one session and leaves the other sessions alone |
| `Checkpoints.InMemoryCheckpointStore.Load` | orchestrate/checkpoint.go:63-70 | the saved response, or none |
| `Checkpoints.InMemoryCheckpointStore.LoadAll` | orchestrate/checkpoint.go:72-82 | all saved responses of the session, none for an unknown one |
| `Checkpoints.InMemoryCheckpointStore.Clear` | orchestrate/checkpoint.go:84-89 | forgets one session only |
| `Backpressure.RunSafe` | orchestrate/backpressure.go:47-156 | in every interleaving the limit stays in [Min, Max], holders plus hand-offs plus lost slots equal active, active is at most Max, and a non-empty queue means active is at least 1 |
| `Backpressure.StepSafe` | orchestrate/backpressure.go:76-129 | each event keeps these and the recorded latencies nonnegative, and each grant, fresh or handed over, leaves active within the limit |
| `Backpressure.InitialSafe` | orchestrate/backpressure.go:47-73 | the defaulted configuration starts safely if and only if Min is at most Max |
| `Backpressure.NormaliseMeans` | orchestrate/backpressure.go:47-66 | given settings are kept, missing ones are one, four times the initial limit and one second, and the initial limit is moved to the nearest bound |
| `Backpressure.AdjustMeans` | orchestrate/backpressure.go:133-156 | nothing before the interval is over; then plus one up to Max if the average is within the threshold, else half down to Min, and an empty log |
| `Backpressure.OldestFirst` | orchestrate/backpressure.go:113-128 | a slot handed over goes to the head of the queue, whose ticket is less than all that still wait |
| `Backpressure.ServedInOrder` | orchestrate/backpressure.go:84-128 | over every run without a cancellation, who waited and who came since are exactly those served, in the order of their tickets, followed by those still waiting |
| `Backpressure.ServedIncreasing` | orchestrate/backpressure.go:84-128 | over every run, cancellations included, slots are handed over in the order in which tickets were issued |
| `Backpressure.AdjustBounds` | orchestrate/backpressure.go:133-156 | an adjustment stays in [Min, Max] and changes neither slots nor waiters |
| `Backpressure.NeverStranded` | orchestrate/backpressure.go:106-129 | without a cancellation no slot is lost, active is holders plus hand-offs, waiters always have one of those to wait for, and a further grant is always possible |
| `Backpressure.NeverGrantsIff` | orchestrate/backpressure.go:76-156 | no continuation with latencies of at least zero and a clock that does not go back ever grants a slot again if and only if the lost slots reach the limit, what it grows to after being halved now, and what it grows to after being raised as soon as the average allows |
| `Backpressure.ReleaseAdjusts` | orchestrate/backpressure.go:110-156 | a release before the interval is over leaves the limit alone; a later one empties the log and raises the limit if the total is below the next multiple of the threshold, else halves it |
| `Backpressure.ReleaseGrantsIff` | orchestrate/backpressure.go:113-128 | a release hands its slot over if and only if somebody waits and the slot is within the limit; otherwise one slot less is in use |
| `Backpressure.FreshExhausted` | orchestrate/backpressure.go:133-156 | with no latency on record the condition is that the lost slots reach the limit raised by every slot still to be released |
| `Backpressure.ExhaustedForever` | orchestrate/backpressure.go:76-156 | that condition is kept by every event and excludes a grant by the next |
| `Backpressure.SomeRunGrants` | orchestrate/backpressure.go:106-156 | without it, receiving and releasing slots, with latencies of at least zero, leads to a grant |
| `Backpressure.CancelledHandOverStops` | orchestrate/backpressure.go:91-101 | one cancellation after a hand-off stops all grants of a controller with one slot |
| `Backpressure.BackpressureController.Enter` | orchestrate/backpressure.go:76-86 | below the limit takes a slot, else joins the end of the queue with the next ticket |
| `Backpressure.BackpressureController.GiveUp` | orchestrate/backpressure.go:91-101 | removes exactly its ticket from the queue, in place; a slot already handed over is lost |
| `Backpressure.BackpressureController.SlotRelease` | orchestrate/backpressure.go:106-129 | after adjusting the limit hands the slot to the head of the queue if active is within it, else frees the slot; the second wake-up never happens |
| `Backpressure.BackpressureController.MaybeAdjust` | orchestrate/backpressure.go:133-156 | halves or increments the limit within its bounds by the truncated average latency |
| `Locks.DeadlockIff` | orchestrate/resource.go:103-164 | for all limits, rates and tag lists, repeated tags and cancellations included: a state in which somebody is unfinished and nobody can step is reachable if and only if some node names a tag whose bucket never grants, or some group of nodes jams some lock |
| `Locks.StarvedIff` | orchestrate/resource.go:130-140 | those nodes are the ones that name a tag with less than one token per second |
| `Locks.DeadlockFree` | orchestrate/resource.go:103-164 | if every bucket grants and no lock in use is named again, all nodes together, as often as its limit, every reachable state of every interleaving is within the limits and somebody can step while anybody is unfinished |
| `Locks.DistinctTagsDeadlockFree` | orchestrate/resource.go:103-164 | the same for limits and rates of at least 1 and nodes that name no tag twice |
| `Locks.WorkWithinLimit` | orchestrate/resource.go:115-123 | in no reachable state do more runners work that name a tag than its limit |
| `Locks.WorkedBefore` | orchestrate/dag.go:542-557 | a node that gives its slots back without having been cancelled has worked in between |
| `Locks.AllFinished` | orchestrate/resource.go:146-164 | where nobody can step and nobody is stuck, all have finished and every slot is free |
| `Locks.RunBound` | orchestrate/resource.go:103-164 | every run has a bounded number of steps and cancellations |
| `Locks.StuckJams` | orchestrate/resource.go:108-128 | in a stuck state the holders of the greatest lock waited for jam it |
| `Locks.FillAll` | orchestrate/resource.go:108-123 | the nodes of a jamming group, one after the other, can take all slots of the lock |
| `Locks.RunOut` | orchestrate/resource.go:115-164 | once a lock is jammed or a node waits for tokens that never come, letting everybody run who can ends in a stuck state |
| `Locks.RunSafe` | orchestrate/resource.go:103-164 | every interleaving keeps each lock's occupancy equal to the slots held, counted with repetitions, and within its limit |
| `Locks.StepSafe` | orchestrate/resource.go:115-123 | taking the next lock or releasing one keeps that |
| `Locks.CancelSafe` | orchestrate/resource.go:123-127 | so does giving up and releasing what was taken |
| `Locks.PlanOrdered` | orchestrate/resource.go:108-118 | every slot of a plan has a limit and is not below one before it |
| `Locks.PlanSorted` | orchestrate/resource.go:108-118 | the global slot can only be first, the tags follow in string order, and the global slot is given back last |
| `Locks.PlanCounts` | orchestrate/resource.go:108-118 | a plan takes a limited tag as often as the node names it, and the global slot once |
| `Locks.LoneWorkerStuckIff` | orchestrate/resource.go:113-140 | a node on its own can reach a state in which it is stuck if and only if it names some lock more often than its limit or a tag whose bucket never grants |
| `Launch.DeadlockFree` | orchestrate/dag.go:519-550 | a backpressure slot first, then the slots of the tags: with no lock to jam and every bucket granting, in every reachable state somebody can go on, or all have left, or slots were lost to cancelled waiters and all who are left wait and can be cancelled too |
| `Launch.StepSafe` | orchestrate/dag.go:519-550 | every step of every node keeps both protocols safe, the controller's tickets those of the waiting nodes, and its holders the nodes inside |
| `Launch.Progress` | orchestrate/dag.go:519-550 | if nobody can go on, whoever has not left waits for a lost slot |
| `Launch.RunBound` | orchestrate/dag.go:519-550 | every run of the two protocols has a bounded number of moves |
| `Locks.RepeatedTagDeadlocks` | orchestrate/resource.go:115 | the tag list [a, a] with limit 1 reaches a stuck state |
| `Locks.TwoNodesDeadlock` | orchestrate/resource.go:115 | with limit 2, a node with tags [a, a] never gets stuck alone, and two of them reach a stuck state |
| `TokenBuckets.IntervalBound` | orchestrate/resource.go:46-78 | at most capacity + rate*T tokens are granted between any two attempts of any run that are T apart |
| `TokenBuckets.Budget` | orchestrate/resource.go:46-78 | grants plus the tokens left are within capacity plus what flowed in |
| `TokenBuckets.Conservation` | orchestrate/resource.go:46-78 | over every run in which the bucket never overflows, grants plus the tokens left are exactly the tokens there were plus what flowed in |
| `TokenBuckets.Burst` | orchestrate/resource.go:46-54 | of k attempts at one moment exactly as many are granted as there are whole tokens, each for one token |
| `TokenBuckets.FreshBurst` | orchestrate/resource.go:36-43 | a fresh bucket grants as many attempts at once as its rate has whole tokens |
| `TokenBuckets.WholeTokens` | orchestrate/resource.go:50-53 | k attempts against at least k tokens are all granted and leave k less |
| `TokenBuckets.AfterLevel` | orchestrate/resource.go:70-78 | the level stays between 0 and the capacity |
| `TokenBuckets.GrantsIffRate` | orchestrate/resource.go:36-43 | a bucket can grant anything at all if and only if its rate is at least 1 |
| `TokenBuckets.PauseAlmostSuffices` | orchestrate/resource.go:55-57 | after the computed pause less than one nanosecond's worth of a token is missing |
| `TokenBuckets.SecondPauseSuffices` | orchestrate/resource.go:55-65 | if the first pause was cut short, the second attempt after it is granted |
| `TokenBuckets.PauseSufficesIff` | orchestrate/resource.go:55-65 | the attempt after the computed pause is granted if and only if the exact pause is a whole number of nanoseconds or at most a millisecond |
| `TokenBuckets.TruncatedPauseFails` | orchestrate/resource.go:55-57 | an empty bucket with three tokens per second has no token after its computed pause |
| `TokenBuckets.GrantedIffPaused` | orchestrate/resource.go:70-78 | an attempt is granted if and only if it comes no earlier than the exact pause |
| `TokenBuckets.TokenBucket.DoRefill` | orchestrate/resource.go:70-78 | adds elapsed times rate, capped at the capacity, and moves the clock |
| `TokenBuckets.TokenBucket.TryTake` | orchestrate/resource.go:46-58 | takes one token of the refilled bucket if and only if a whole one is there, else leaves it and gives the pause, for every rate |
| `CircuitBreaker.TraceLaw` | largemodel/circuitbreaker.go:105-162 | after any interleaving of admissions and results, late ones included: Closed if and only if the trailing run of failures is shorter than max(1, threshold), HalfOpen if and only if a probe is in flight |
| `CircuitBreaker.AdmissionLaw` | largemodel/circuitbreaker.go:105-162 | a call is admitted if and only if the trailing failures are below max(1, threshold), or no probe is unanswered and the reset timeout is over since the failure that last opened the circuit |
| `CircuitBreaker.ProbesSpaced` | largemodel/circuitbreaker.go:120-129 | two probes of one episode are at least the reset timeout apart |
| `CircuitBreaker.FirstProbeWaits` | largemodel/circuitbreaker.go:120-126 | the first probe comes no earlier than the reset timeout after the failure that opened the circuit |
| `CircuitBreaker.CircuitBreakerMiddleware.AllowCall` | largemodel/circuitbreaker.go:105-132 | admits exactly as that law says of everything that happened before |
| `CircuitBreaker.CircuitBreakerMiddleware.RecordResult` | largemodel/circuitbreaker.go:136-162 | the fields stay those of the extended trace |
| `RateLimit.RateLimitMiddleware.AllowRequest` | largemodel/ratelimit.go:103-133 | although the logs are pruned, admits exactly if fewer passes of the full history are within the last 60 seconds than requests allowed, and the tokens recorded in that time are below those allowed; a request refused for tokens is still counted |
| `RateLimit.RateLimitMiddleware.RecordTokens` | largemodel/ratelimit.go:136-145 | records positive usage when tokens are limited |
| `RateLimit.AdmittedBound` | largemodel/ratelimit.go:103-133 | after every run, no interval of 60 seconds holds more admitted requests than the limit |
| `RateLimit.RefusesFairlyIff` | largemodel/ratelimit.go:110-130 | every refusal for the number of requests means that so many were admitted in the last minute if and only if tokens are not limited |
| `RateLimit.IntervalBound` | largemodel/ratelimit.go:103-117 | no interval of 60 seconds holds more passes than the limit |
| `RateLimit.PassKeepsSpaced` | largemodel/ratelimit.go:110-117 | a pass into a window with room keeps any limit+1 consecutive passes more than 60 seconds apart |
| `RateLimit.CoveredWindow` | largemodel/ratelimit.go:148-155 | pruning at an older start loses nothing that a later window needs |
| `RateLimit.PruneTimestamps` | largemodel/ratelimit.go:148-155 | keeps exactly the entries inside the window |
| `RateLimit.PruneTokenEntries` | largemodel/ratelimit.go:158-165 | keeps exactly the entries inside the window |
| `SessionLog.Conversation` | agent/taskagent/task.go:255-308 | any number of turns, each loading, with any compressor, and then storing, ends with exactly all request and response messages in order, up to a million; values of other types under the prefix do no harm |
| `SessionLog.StoreAndPromote` | agent/taskagent/task.go:743-773 | appends the turn's messages to the log, at keys that no earlier message uses |
| `SessionLog.LoadSessionMessages` | agent/taskagent/task.go:281-308 | returns the whole log, in order up to a million messages, whatever order the store lists it in and whatever values of other types it lists |
| `SessionLog.LoadAndCompress` | agent/taskagent/task.go:255-278 | the log or its compression, and always the uncompressed count; a failing compressor is ignored |
| `SessionLog.PromoteToSession` | memory/manager.go:94-121 | the session log grows by exactly the working entries, also over values of other types |
| `SessionLog.ListedInOrder` | memory/mapstore.go:83-100 | the messages in a listing of the log are its messages under their keys |
| `SessionLog.SortedListing` | agent/taskagent/task.go:291-305 | sorting any such listing by key and dropping other values gives all messages, in message order up to a million |
| `SessionLog.MapStore.Get` | memory/mapstore.go:57-67 | the value if its time to live is missing or not over, else none; an expired entry is dropped and no other live value changes |
| `SessionLog.MapStore.Set` | memory/mapstore.go:69-76 | sets exactly this key |
| `SessionLog.MapStore.List` | memory/mapstore.go:83-100 | exactly the entries whose key starts with the prefix and whose time to live is missing or not over, each key once; exactly the others that are over are deleted |
| `MessageKeys.KeysOrderedIff` | agent/taskagent/task.go:753 | the first n keys sort in numeric order if and only if n is at most a million |
| `MessageKeys.KeysDiffer` | agent/taskagent/task.go:762 | no two indexes share a key, however large |
| `MessageKeys.KeyValue` | agent/taskagent/task.go:753 | the index can be read back from its key |
| `MessageKeys.KeyShape` | agent/taskagent/task.go:753 | a key is msg: and at least six decimal digits, exactly six below a million |
| `MessageKeys.MillionthKey` | agent/taskagent/task.go:753 | the key of message 1000000 sorts before that of 999999 |
| `Summary.SummarizeAndTruncCompressor.Compress` | memory/compressor_summarize_trunc.go:91-160 | if a summary is kept the whole result is within maxTokens, its text is a prefix of the summarizer's, cut only if too long, and then wastes at most one token; otherwise exactly the recent messages |
| `Summary.EstimateMeans` | memory/token_estimate.go:52-64 | zero exactly for no text, at least one for any other, and a quarter of the length rounded down from four bytes on |
| `Summary.TotalAdds` | memory/compressor_summarize_trunc.go:116-119 | the total of messages is the sum of the estimates of their texts |
| `Summary.TruncationFits` | memory/compressor_summarize_trunc.go:133-141 | the proportional cut is never empty and is estimated at the budget or one below, for any product within one of the exact one |
| `Summary.TargetBounds` | memory/compressor_summarize_trunc.go:134-135 | the exact product lies in [4*budget, 4*budget + 3) despite the flooring estimator |

## Left out

Modelled weaker, or in another form, than the source:

- BuildDagMaps: the order within a list of dependents is not stated, as no result depends on it; hence the exact order emitted by the Kahn sort is not stated either.
- RunNode: slot acquisition, timeouts, rate tokens and backoff appear only as a cancelled attempt; they delay a node otherwise, and their protocols are modelled on their own.
- DrainDoneCh: completions drained at an exit are discarded, as in the source, so rollback ranges over the nodes recorded as Done.
- ExecuteBackwardCompensation: takes and returns the status map instead of updating the shared result; its error list is a boolean.
- ApplyCriticalPath: returns a copy of the nodes, where the source writes priorities into the caller's slice.
- Finalize: an aggregator error is None, without its text.
- KillAndResume: the store is the in-memory one, whose calls do not fail.
- DeadlockIff: a protocol over values; semaphore channels are counters, tags are released in plan order, and a wait for tokens is one step that can be taken exactly if every bucket of the node grants at all. The global slot is the semaphore's; `Launch` has the backpressure controller in its place.
- NeverGrantsIff: a release may come with any latency of at least zero and any later clock reading; that a measured latency is the time since the slot was taken is not taken into account.
- FailStopIff: ranges over all runners of a launched node; that a given node's condition or mapper keeps it from being launched is not taken into account.
- TryTake: the loop around it is the caller's; for a rate of zero the source converts infinity to a duration, and the model allows any pause of at least a millisecond.
- Compress: the estimator is the default one, and the floating-point product is any real within one of the exact product.
- AllowRequest: clock readings are parameters and never go back, as with Go's monotone clock.
- ProbesSpaced: ranges over traces with nondecreasing times.
- Up: container/heap is not part of the repository; its sift-up and sift-down are written out after the library.
- Down: the index field that the items carry for the library is not modelled, nothing reads it.
- MapStore.List: creation times are kept but not returned with the entries.
- BuildNodeInput: a mapper that returns neither a request nor an error is not modelled.

Not modelled:

- token usage totals, timelines, event handlers, logging, hooks and metrics, which do not affect the modelled state;
- BuildDAG, conditional and spawn nodes, loops, the last-result aggregator, option setters: single-branch facts;
- checkpoint stores that fail, and sessions shared by two graphs with equal node IDs;
- what a checkpoint means after a compensated run;
- sessions written by two runs at once, promoters other than the one that promotes everything, and archiving;
- custom token estimators, and message metadata and timestamps;
- model calls, tools, guards, prompts, HTTP and MCP.
