# Job orchestrator: verified model

This project models the parts of the job orchestrator in which mistakes are hardest to see, and proves what they are
for: the distributed lock, the DAG algorithms, the DAG executor, the priority queue with the scheduler and its retries,
the LRU cache and the in-memory locks.

Every component has the same shape. A transition is a function on values (a graph, an execution record, a queue, a
table of locks). Classes with the program's fields and methods are proved to make exactly these transitions, through
the loops the program has. Lemmas about the functions then state what holds over whole runs.

| file | what it models |
|---|---|
| `Graphs.dfy` | finite sets and sequences; directed graphs, chains, cycles, topological orders |
| `TopologicalSort.dfy`, `CycleSearch.dfy`, `ExecutionPlan.dfy` | Kahn's sort, the two depth-first searches, the level plan |
| `Dag.dfy` | `DAG` with its mutators and `DAGBuilder` |
| `DagExecutor.dfy` | one DAG execution and the executor that owns several |
| `Jobs.dfy` | the job state machine, the runner's transitions, the retry policy |
| `BinaryHeap.dfy`, `PriorityQueue.dfy` | `heapq` on a list; the queue with lazy deletion |
| `Scheduler.dfy` | the scheduler, its counters and its workers |
| `DagOnScheduler.dfy` | the DAG executor on top of the scheduler |
| `TtlCache.dfy` | the LRU cache with time-to-live |
| `MemoryLocks.dfy` | the in-memory lock manager |
| `Redlock.dfy`, `RedlockManager.dfy` | the Redlock protocol, and the Redis lock manager's methods |

## What is a parameter

- The clock: `now`, and for Redlock every reading of it. Time is real; Redlock counts milliseconds.
- Iteration order of sets and dictionaries: arbitrary.
- `scheduler.submit` inside the executor: the set `rejected` of jobs whose submission raises.
- The outcome of a job, whether its error is retryable, and the jitter draw in [0, 1). (`run_job` wraps every error in a
  plain `Exception` before it asks the policy, `fail_job` passes the error itself; the parameter is the policy's answer.)
- For a Redis command: carried out and answered, carried out with the reply lost, or not carried out. A node may drop a
  key earlier than asked by a rate of the time-to-live plus a constant, and may keep it for any time longer.

## Where the program differs from its documentation

- `find_cycle` documents a list of jobs forming the cycle. It follows parents from the job met again up to the root of
  the search. For two jobs that depend on each other it always returns one of them twice (`ReportTwoJobs`); in general
  its reports are cycles, whatever the order of the search, exactly on the graphs in which every job of a cycle has an
  edge to each of its ancestors (`ReportsAreCyclesIff`, and `ReportAlong` for the reports being possible).
- `calculate_delay` documents a cap; jitter is applied after it (`DelayExceedsCapIff`). With the default three retries
  the cap is not reached, with ten it is exceeded (`ExceedsCapWithinRetriesIff`, `DefaultPolicyWithinCap`,
  `TenRetriesExceedCap`).
- The queue documents that pushing a known job updates it. Removal is recorded by id and cleared again by the push, so
  the old entry is live again and the job is handed out twice (`PushKeepsCleanIffUnindexed`, `RepushDeliversTwice`).
- The queue's class promises first in, first out within a priority. Times come before that: it holds for two listed jobs
  exactly when the one that entered first is not scheduled for later (`FifoWithinPriorityIff`, `LaterPushListedFirst`).
- A cancelled job is kept from being executed exactly when no worker holds it at that moment
  (`CancelPreventsExecutionIffQueued`). One that a worker holds is still executed; when it then fails with
  retries left, its attempt is counted but no retry is, and only then do the attempts exceed the retried counter
  (`RetriedIsAttemptsIff`, `CancelledJobRuns`).
- `pop` with a timeout of zero is documented to return at once. It does exactly when nothing is listed or something is
  due at its first reading of the clock; otherwise it goes round its loop, holding the lock, without waiting or looking
  at the timeout (line 226), until something is due (`ZeroTimeoutReturnsAtOnceIff`, `ZeroTimeoutPops`,
  `ZeroTimeoutSpins`).
- A retry is pushed without looking at the answer. When the queue is full, the job stays SCHEDULED and nobody ever gets
  it (`EveryJobInItsPlaceIff`, `StepLosesIff`, `RetryGetsLost`).
- `start` is documented to start the scheduler. After a `stop` it does not: the queue stays shut down
  (`RestartedHandsOutNothing`).
- `cancel_job` does not tell the DAG executor. A DAG all of whose running jobs have been cancelled that way stays as it
  is until it is cancelled as a whole (`GoesOnIff`, `CancelledJobStalls`, `StartedAlone`).
- Redlock reads the clock once for the validity time (line 239) and again for the expiry (line 249). The delay between
  the two comes out of the drift margin (`SafeIffMarginCovers`).
- `release` of the in-memory manager succeeds on an expired lock until something removes it (`ReleaseTellsSweepIff`).
- A DAG without an accepted root stays RUNNING (`RejectedRootsStall`), and a late completion can turn CANCELLED into
  COMPLETED (`CancelledLeftByLastCompletion`, `CancelledBecomesCompleted`).

## Assumptions of the main results

- Scheduler: each method, and each of the two halves of `run_job` around the execution of the function, is one atomic
  step; workers run only jobs handed to them; submitted jobs are new. The queue may have a maximum.
- Queue: during a `pop` with a timeout of zero the clock does not go back behind the moment of the call.
- DAG executor: completions and failures are reported for running jobs only, which `DagOnScheduler` proves of an
  executor on top of a scheduler with an unbounded queue whose jobs nobody else submits. That each running job is
  reported at all is not assumed, and `DagOnScheduler` says exactly when one still can be.
- Redlock: all clients use the same nodes; an owner is one client that does not acquire while it holds; a release takes
  effect before the client goes on, or never; an extend does not shorten a held lock; one resource is considered, as
  the keys of different resources are different.
- In-memory locks: the clock does not go backwards, and locks are released by their owners.

## Model

| member | source | states |
|---|---|---|
| TopologicalSorting.KahnSort | src/job_orchestrator/core/dag.py:270-316 | Kahn's loop sorts exactly the acyclic graphs; the result lists every job once with each dependency before its dependents; the error names exactly the jobs on or downstream of a cycle. The loop invariant keeps every in-degree equal to the number of unprocessed dependencies |
| CycleSearch.VisitForCycle | src/job_orchestrator/core/dag.py:330-341 | the recursive three-colour search terminates, answers true only if there is a cycle, and otherwise blackens the job, with all dependents of black jobs finished before them |
| CycleSearch.SearchForCycle | src/job_orchestrator/core/dag.py:318-348 | `has_cycle` is true exactly when the graph has a directed cycle |
| CycleSearch.VisitForBackEdge | src/job_orchestrator/core/dag.py:361-374 | on a hit the job returned lies on the search path, whose last job has an edge back to it, and the parent links follow the path; without one the search state is kept. If the orders of the dependents lead straight down a path and back, that is the path found |
| CycleSearch.ReconstructCycle | src/job_orchestrator/core/dag.py:380-387 | the reported list is exactly the job met again followed by the search path from the root down to it |
| CycleSearch.ReportCycle | src/job_orchestrator/core/dag.py:350-389 | in any order of jobs and dependents: `find_cycle` returns None exactly when there is no cycle, and otherwise the list of some search path without repetitions that has an edge back to one of its jobs |
| CycleSearch.ReportInOrder | src/job_orchestrator/core/dag.py:350-389 | the same for given orders of the jobs and of each job's dependents, and which report it is when the orders lead straight down a path |
| CycleSearch.ReportEndsOnCycle | src/job_orchestrator/core/dag.py:380-387 | every report starts and ends at one job of a real cycle and is a path from its second element on |
| CycleSearch.ReportAlong | src/job_orchestrator/core/dag.py:376-387 | every list that the definition of a report admits is returned for some order |
| CycleSearch.ReportsAreCyclesIff | src/job_orchestrator/core/dag.py:350-389 | on the graph alone: all reports are cycles exactly if every job of a cycle has an edge to each of its ancestors, itself included |
| CycleSearch.TwoJobReports | src/job_orchestrator/core/dag.py:377-387 | for two jobs that depend on each other every report is one job twice, which is no cycle |
| CycleSearch.ReportTwoJobs | src/job_orchestrator/core/dag.py:350-389 | on that graph `find_cycle` always returns one job twice although the graph has a cycle of both |
| ExecutionPlans.PlanLevels | src/job_orchestrator/core/dag.py:426-468 | the level loop yields a plan for acyclic graphs, in which level k holds exactly the jobs whose longest dependency chain has k + 1 jobs; it raises only with jobs left that all wait for each other |
| ExecutionPlans.PlanDependenciesEarlier | src/job_orchestrator/core/dag.py:430-434 | in a plan every dependency sits at a strictly earlier level, so no level has an internal edge |
| ExecutionPlans.PlanFlattensToTopologicalOrder | src/job_orchestrator/core/dag.py:430-434 | the levels flatten to a topological order, whatever the order within a level |
| ExecutionPlans.PlanIsMinimal | src/job_orchestrator/core/dag.py:446-468 | no staging that respects the edges starts any job earlier or has fewer stages |
| Graphs.StuckIsCyclic | src/job_orchestrator/core/dag.py:454-458 | jobs that each wait for another of the same set expose a cycle, so an empty level means a cyclic graph |
| Dags.Dag.AddNode | src/job_orchestrator/core/dag.py:124-133 | adds the job with no edges, once; the two adjacency sets stay exact mirrors closed over the nodes |
| Dags.Dag.AddEdge | src/job_orchestrator/core/dag.py:135-157 | raises for an unknown end, else adds the edge to both adjacency sets and to the job's own list |
| Dags.AddKeepsMirror | src/job_orchestrator/core/dag.py:152-153 | adding an edge on both sides keeps the adjacency maps exact mirrors |
| Dags.Dag.RemoveEdge | src/job_orchestrator/core/dag.py:159-173 | removes the edge from both sets and from the list, and does nothing for an unknown end |
| Dags.RemoveKeepsMirror | src/job_orchestrator/core/dag.py:168-169 | removing an edge on both sides keeps the adjacency maps exact mirrors |
| Dags.RemoveFirstContents | src/job_orchestrator/core/dag.py:172-173 | removing from a list without repetitions removes the job from its contents and nothing else |
| Dags.AddKeepsLists | src/job_orchestrator/core/dag.py:156-157 | the jobs' own dependency lists stay exact when an edge is added |
| Dags.RemoveKeepsLists | src/job_orchestrator/core/dag.py:171-173 | the jobs' own dependency lists stay exact when an edge is removed |
| Dags.Dag.AddJob | src/job_orchestrator/core/dag.py:175-192 | adds the job and exactly those listed dependencies that are in the graph, also to the job's own list |
| Dags.ListAddKnownContents | src/job_orchestrator/core/dag.py:156-157 | the job's own list then names what it named before and the known dependencies, still once each |
| Dags.AddJobAddsKnown | src/job_orchestrator/core/dag.py:175-192 | `add_job` adds exactly the edges from the given dependencies that are in the graph, itself included |
| Dags.NewNodeKeepsListsIff | src/job_orchestrator/core/dag.py:124-133 | adding a new job keeps the lists exact exactly when its own list starts empty |
| Dags.MutatorsKeepLists | src/job_orchestrator/core/dag.py:124-192 | over every sequence of mutators each job's own list names exactly its dependencies in the graph, once each |
| Dags.EdgesAreLinked | src/job_orchestrator/core/dag.py:124-192 | over every sequence of mutators the graph has exactly the jobs added and the edges whose last mention added them between known jobs |
| Dags.Dag.TopologicalSort | src/job_orchestrator/core/dag.py:270-316 | on the object: sorts exactly when the graph is acyclic |
| Dags.Dag.HasCycle | src/job_orchestrator/core/dag.py:318-348 | on the object: true exactly when the graph is cyclic, so it agrees with the sort, the plan and `find_cycle` |
| Dags.Dag.FindCycle | src/job_orchestrator/core/dag.py:350-389 | on the object: not None exactly when the graph is cyclic |
| Dags.Dag.GetExecutionPlan | src/job_orchestrator/core/dag.py:426-468 | on the object: a plan exactly when the graph is acyclic, else it raises |
| Dags.Dag.MissingDependencies | src/job_orchestrator/core/dag.py:403-409 | exactly one error for every dependency that is not a job, and no other |
| Dags.Dag.CycleErrors | src/job_orchestrator/core/dag.py:412-415 | one error with a cycle report if the graph is cyclic, else none |
| Dags.Dag.Validate | src/job_orchestrator/core/dag.py:391-424 | the errors are without repetition the missing dependencies, and after them for a cyclic graph one cycle report |
| Dags.DagBuilder.AddJob | src/job_orchestrator/core/dag.py:542-600 | registers the key, adds the job and the dependencies before the first unknown key, also to the job's own list; raises exactly when some key is unknown |
| Dags.DagBuilder.Build | src/job_orchestrator/core/dag.py:659-670 | returns the DAG exactly when its graph is acyclic |
| Dags.FreshJobKeepsAcyclic | src/job_orchestrator/core/dag.py:588-598 | a new job that depends only on older jobs closes no cycle |
| Dags.BuilderStaysAcyclic | src/job_orchestrator/core/dag.py:583-600 | adding a job the graph does not have creates a cycle exactly when the job names its own key |
| Dags.BuilderAlwaysAcyclic | src/job_orchestrator/core/dag.py:542-600 | whatever sequence of fresh jobs that never name their own key is added, the graph stays closed and acyclic |
| DagExecution.RescanQueuesNothing | src/job_orchestrator/scheduler/dag_executor.py:270-315 | in every eager state the rescan of the completion check finds nothing to queue |
| DagExecution.StepKeepsCore | src/job_orchestrator/scheduler/dag_executor.py:148-245 | every event keeps running, completed and failed disjoint, dispatch safe and dispatch eager |
| DagExecution.RunKeepsCore | src/job_orchestrator/scheduler/dag_executor.py:105-345 | in every reachable state each dispatched job has all its dependencies completed and no job with completed dependencies is left waiting |
| DagExecution.RunStopped | src/job_orchestrator/scheduler/dag_executor.py:218-345 | in every run, cancellations included, a CANCELLED or FAILED execution has every job completed, failed or cancelled, and a FAILED one has a failed job |
| DagExecution.NothingRunsAfterStop | src/job_orchestrator/scheduler/dag_executor.py:193-261 | after a cancellation or a fail-fast failure at any point of any run, no job ever becomes running again |
| DagExecution.CancelledSetIsExact | src/job_orchestrator/scheduler/dag_executor.py:250-346 | in every run, with any cancellations, fail-fast or not, the cancelled jobs are exactly those neither completed nor failed when the DAG was first cancelled or failed |
| DagExecution.NothingCancelledBefore | src/job_orchestrator/scheduler/dag_executor.py:250-346 | before that no job counts as cancelled |
| DagExecution.CallbacksTellHistory | src/job_orchestrator/scheduler/dag_executor.py:250-346 | in every run, cancellations included, the completion callback has fired once if the DAG was ever COMPLETED, the failure callback once if it was ever FAILED, never both, and a cancellation fires none |
| DagExecution.CancelledLeftByLastCompletion | src/job_orchestrator/scheduler/dag_executor.py:299-303 | in every run CANCELLED is left exactly when the last running job completes and none has failed |
| DagExecution.CancelledBecomesCompleted | src/job_orchestrator/scheduler/dag_executor.py:299-303 | a DAG of one job that is cancelled while the job runs becomes COMPLETED when the job does |
| DagExecution.StepUncancelled | src/job_orchestrator/scheduler/dag_executor.py:148-315 | without cancellation RUNNING implies a running job after every event, and FAILED is kept |
| DagExecution.FailFastFails | src/job_orchestrator/scheduler/dag_executor.py:218-246 | in every run with fail-fast, no cancellation and no refused submission, one failed job makes the DAG FAILED |
| DagExecution.StepShrinksUnfinished | src/job_orchestrator/scheduler/dag_executor.py:167-169 | every completion or failure strictly shrinks the jobs not completed or failed |
| DagExecution.RunTerminates | src/job_orchestrator/scheduler/dag_executor.py:148-315 | a run without cancellation has at most as many events as the DAG has jobs |
| DagExecution.RunIsNeverStuck | src/job_orchestrator/scheduler/dag_executor.py:270-315 | while a DAG that started with an accepted root is RUNNING, its set of running jobs is not empty |
| DagExecution.RejectedRootsStall | src/job_orchestrator/scheduler/dag_executor.py:128-146 | no job runs from the start exactly when all roots are rejected; such a DAG, an empty one included, gets no event and stays RUNNING |
| DagExecution.BlockedByFailure | src/job_orchestrator/scheduler/dag_executor.py:193-216 | in an acyclic DAG a job that was never dispatched has a failed proper ancestor |
| DagExecution.AncestorsCompleted | src/job_orchestrator/scheduler/dag_executor.py:211-216 | all proper ancestors of a dispatched job have completed |
| DagExecution.FailedRunPartition | src/job_orchestrator/scheduler/dag_executor.py:218-315 | without fail-fast, a FAILED run partitions the jobs into completed, failed and cancelled, the cancelled being exactly those with a failed proper ancestor |
| DagExecution.CompletedMeansAllCompleted | src/job_orchestrator/scheduler/dag_executor.py:298-303 | a started acyclic DAG is COMPLETED exactly when all its jobs are completed |
| DagExecution.CallbacksFireOnce | src/job_orchestrator/scheduler/dag_executor.py:247-315 | without cancellation exactly one of the two DAG callbacks fires, once, and it is the one of the final status |
| DagExecution.FailedIsFinal | src/job_orchestrator/scheduler/dag_executor.py:247-250 | whatever happened before, FAILED is left by nothing but a cancellation |
| DagExecution.DagExecution.QueueJob | src/job_orchestrator/scheduler/dag_executor.py:138-146 | one job becomes running, or failed when its submission raises |
| DagExecution.DagExecution.IsJobReady | src/job_orchestrator/scheduler/dag_executor.py:193-216 | ready exactly when the job is in the DAG, not seen yet, and all dependencies are completed |
| DagExecution.DagExecution.FailDag | src/job_orchestrator/scheduler/dag_executor.py:247-268 | marks the DAG failed and the unfinished jobs cancelled, once |
| DagExecution.DagExecution.CheckDagCompletion | src/job_orchestrator/scheduler/dag_executor.py:270-315 | waits, queues, fails or completes the DAG as the transition function says |
| DagExecution.DagExecution.OnJobComplete | src/job_orchestrator/scheduler/dag_executor.py:167-191 | the completion event on the whole execution record, and the list of jobs it tried to queue |
| DagExecution.DagExecution.OnJobFailed | src/job_orchestrator/scheduler/dag_executor.py:235-245 | the failure event on the whole execution record |
| DagExecution.DagExecution.Cancel | src/job_orchestrator/scheduler/dag_executor.py:332-343 | the cancellation event on the whole execution record, and the jobs the scheduler is asked to cancel |
| DagExecution.DagExecutor.StartDag | src/job_orchestrator/scheduler/dag_executor.py:105-136 | registers the execution and its jobs and queues the roots; other executions keep their record |
| DagExecution.DagExecutor.OnJobComplete | src/job_orchestrator/scheduler/dag_executor.py:158-191 | delivers the event to the job's own DAG only and returns the jobs it tried to queue; unknown jobs are ignored |
| DagExecution.DagExecutor.OnJobFailed | src/job_orchestrator/scheduler/dag_executor.py:226-245 | likewise for a failure |
| DagExecution.DagExecutor.CancelExecution | src/job_orchestrator/scheduler/dag_executor.py:317-346 | found exactly when the DAG is active; the scheduler is asked to cancel exactly its unfinished jobs |
| JobStates.Transition | src/job_orchestrator/core/state.py:137-191 | a valid transition is made and rolled back when it is not persisted; an invalid one changes nothing |
| JobStates.RunsFollowRetries | src/job_orchestrator/core/state.py:60-74 | in every history of a job RUNNING is visited at most once more than RETRYING |
| JobStates.TerminalIsLast | src/job_orchestrator/core/state.py:60-81 | a terminal state is entered once and ends the history |
| JobStates.EnteredFrom | src/job_orchestrator/core/state.py:60-74 | from which states each state is entered: CANCELLED from PENDING, SCHEDULED and RETRYING only, RETRYING and FAILED also from TIMEOUT |
| JobStates.ReachesIff | src/job_orchestrator/core/state.py:60-74 | exactly the unfinished states lead on, and each leads to every state but PENDING |
| JobStates.EnterRunning | src/job_orchestrator/scheduler/runner.py:82-98 | the transitions before execution, with the state left behind when the first or the second of them is not persisted |
| RetryPolicies.DelayExceedsCapIff | src/job_orchestrator/scheduler/retry.py:73-84 | some draw of the jitter exceeds `max_delay` exactly when there is jitter and the capped delay times its extreme factor does: the documented cap does not hold |
| RetryPolicies.FirstDelay | src/job_orchestrator/scheduler/retry.py:73-77 | without jitter the delay for count 0 is the smaller of the initial delay and the cap |
| RetryPolicies.NextDelay | src/job_orchestrator/scheduler/retry.py:52-77 | without jitter and for a base of at least one, each further delay is the smaller of the base times the one before and the cap |
| RetryPolicies.JitterScales | src/job_orchestrator/scheduler/retry.py:79-84 | jitter multiplies that delay by a factor of at least 0.5 and below 1.5 |
| RetryPolicies.DefaultDelays | src/job_orchestrator/scheduler/retry.py:66-71 | the documented delays of 1, 2, 4 and 8 seconds |
| RetryPolicies.ExceedsCapWithinRetriesIff | src/job_orchestrator/scheduler/retry.py:86-108 | for delays that do not shrink, some retry the policy allows can exceed the cap exactly when one and a half times the capped delay of the last one does |
| RetryPolicies.TenRetriesExceedCap | src/job_orchestrator/scheduler/retry.py:45-49 | the default delays with ten retries exceed their cap within those |
| RetryPolicies.DefaultPolicyWithinCap | src/job_orchestrator/scheduler/retry.py:45-49 | the default policy with its three retries never does |
| RetryPolicies.DelayWithinJitter | src/job_orchestrator/scheduler/retry.py:73-84 | every delay lies between half the capped delay and one and a half times the cap |
| RetryPolicies.BackoffIsMonotone | src/job_orchestrator/scheduler/retry.py:73-77 | without jitter a later attempt waits at least as long |
| BinaryHeaps.SiftDown | src/job_orchestrator/queue/priority_queue.py:165 | heapq's move towards the root turns an almost-heap into a heap with the same entries |
| BinaryHeaps.SiftUp | src/job_orchestrator/queue/priority_queue.py:250 | heapq's move to a leaf and back does the same from a replaced root |
| BinaryHeaps.HeapPush | src/job_orchestrator/queue/priority_queue.py:165 | the heap order is kept and one entry is added |
| BinaryHeaps.HeapPop | src/job_orchestrator/queue/priority_queue.py:262 | the heap order is kept and a least entry by priority, time and insertion is taken out |
| PriorityQueues.OpsKeepInv | src/job_orchestrator/queue/priority_queue.py:124-482 | after any operation sequence, re-pushes and replacements included: removed ids are indexed, every indexed entry is in the heap under its id, insertion numbers are unique and below the counter, and the entries, listed in order, ascend strictly (that the list is kept as a heap is part of `Valid` of the queue object) |
| PriorityQueues.ScanKeepsInv | src/job_orchestrator/queue/priority_queue.py:255-283 | the scan for a ready job keeps that invariant while passing over entries not yet due |
| PriorityQueues.ScanAbsorbsCleanup | src/job_orchestrator/queue/priority_queue.py:193-201 | cleaning up before the scan changes neither its result nor the state it leaves |
| PriorityQueues.LengthCounts | src/job_orchestrator/queue/priority_queue.py:90-93 | the length is the number of ids `contains` accepts and equals ready plus scheduled |
| PriorityQueues.ScanTakesFirstDue | src/job_orchestrator/queue/priority_queue.py:255-283 | on a clean queue the least due live entry is handed out and exactly the other live entries remain, in order |
| PriorityQueues.ScanKeepsClean | src/job_orchestrator/queue/priority_queue.py:255-283 | handing out keeps every heap entry the indexed one of its job |
| PriorityQueues.IterationIsSortedIndex | src/job_orchestrator/queue/priority_queue.py:541-552 | iteration lists the entry of every live job and nothing else, in ascending order |
| PriorityQueues.PushKeepsCleanIffUnindexed | src/job_orchestrator/queue/priority_queue.py:124-173 | a push keeps the queue clean exactly when the id is not indexed, not even as removed |
| PriorityQueues.PushInserts | src/job_orchestrator/queue/priority_queue.py:148-173 | pushing an unindexed job inserts one entry into the sorted listing |
| PriorityQueues.RemoveTakesOut | src/job_orchestrator/queue/priority_queue.py:330-347 | removal takes out the job's entry and leaves the others |
| PriorityQueues.CleanupIsInvisible | src/job_orchestrator/queue/priority_queue.py:247-253 | cleaning up does not change the listing |
| PriorityQueues.DisciplineKeepsClean | src/job_orchestrator/queue/priority_queue.py:124-173 | over any sequence that pushes only unindexed ids and replaces nothing, the heap holds exactly the indexed entries |
| PriorityQueues.DrainFollowsIteration | src/job_orchestrator/queue/priority_queue.py:255-283 | draining a fully due clean queue gives exactly the order of iteration |
| PriorityQueues.DrainIsDueOf | src/job_orchestrator/queue/priority_queue.py:255-283 | draining a clean queue at any moment hands out exactly the listed jobs that are due then, in the order of iteration |
| PriorityQueues.ReadyAreDrained | src/job_orchestrator/queue/priority_queue.py:494-525 | what `get_stats` counts as ready is the number of jobs a drain at that moment hands out, and those are the jobs |
| PriorityQueues.IterationIsFifo | src/job_orchestrator/queue/priority_queue.py:20-37 | after any operations the iteration lists one job before another exactly when its priority is smaller, or its time at equal priority, or it was pushed or replaced earlier at equal both |
| PriorityQueues.PopIsFifo | src/job_orchestrator/queue/priority_queue.py:255-283 | over every disciplined sequence a pop hands out the due job that all other due ones come after in that order, and nothing only if none is due |
| PriorityQueues.DrainIsFifo | src/job_orchestrator/queue/priority_queue.py:255-283 | and a drain hands out the due jobs in that order |
| PriorityQueues.FifoWithinPriorityIff | src/job_orchestrator/queue/priority_queue.py:50-50 | of two listed jobs of one priority the one that entered first stands first exactly when it is not scheduled for later than the other |
| PriorityQueues.LaterPushListedFirst | src/job_orchestrator/queue/priority_queue.py:50-50 | of two jobs of one priority the one pushed second stands first when it is scheduled for an earlier time |
| PriorityQueues.ReplaceUpdates | src/job_orchestrator/queue/priority_queue.py:381-467 | replacing a live job changes its listed entry to the new priority and time and no other entry |
| PriorityQueues.CleanupForgets | src/job_orchestrator/queue/priority_queue.py:247-253 | the clean-up leaves no removed job at the top and changes no entry it keeps |
| PriorityQueues.FullIff | src/job_orchestrator/queue/priority_queue.py:140-142 | a push is refused exactly when a positive maximum is reached by the jobs `contains` accepts |
| PriorityQueues.RepushDeliversTwice | src/job_orchestrator/queue/priority_queue.py:144-169 | pushing an indexed id again, or replacing it, makes a drain hand it out twice although it counts once |
| PriorityQueues.ThreadSafePriorityQueue.Len | src/job_orchestrator/queue/priority_queue.py:90-93 | the number of live ids |
| PriorityQueues.ThreadSafePriorityQueue.Push | src/job_orchestrator/queue/priority_queue.py:124-173 | refuses exactly when full, else the pushed state |
| PriorityQueues.ThreadSafePriorityQueue.CleanupRemoved | src/job_orchestrator/queue/priority_queue.py:247-253 | drops removed entries from the top of the heap and from the index |
| PriorityQueues.ThreadSafePriorityQueue.GetReadyJob | src/job_orchestrator/queue/priority_queue.py:255-283 | the result and the state of the scan, over a real heap |
| PriorityQueues.TurnGoesRoundIff | src/job_orchestrator/queue/priority_queue.py:194-226 | on every sound and clean queue a turn of `pop(timeout=0)` goes round exactly when jobs are listed and none of them is due, gives up exactly when none is listed, and else hands one out |
| PriorityQueues.ZeroTimeoutPops | src/job_orchestrator/queue/priority_queue.py:177-232 | over any readings of the clock: `pop(timeout=0)` gives up exactly on an empty queue; with jobs listed it returns at the first reading at which one is due, with the first due job of the listing, and not before |
| PriorityQueues.ZeroTimeoutReturnsAtOnceIff | src/job_orchestrator/queue/priority_queue.py:177-226 | it returns at its first reading exactly when nothing is listed or something is due then |
| PriorityQueues.ZeroTimeoutSpins | src/job_orchestrator/queue/priority_queue.py:215-226 | with one job pushed for later the call has not returned after any number of readings before that time |
| PriorityQueues.ThreadSafePriorityQueue.PopNowait | src/job_orchestrator/queue/priority_queue.py:177-241 | `pop(timeout=0)` with its loop, the clean-up and the scan of every turn: three outcomes, handed out, given up, still going round; a shut-down queue gives up unchanged; on a clean queue as `ZeroTimeoutPops` says |
| PriorityQueues.ThreadSafePriorityQueue.Shutdown | src/job_orchestrator/queue/priority_queue.py:484-492 | the queue is shut down, its content unchanged |
| PriorityQueues.ThreadSafePriorityQueue.Remove | src/job_orchestrator/queue/priority_queue.py:330-347 | marks a live id as removed and reports whether there was one |
| PriorityQueues.ThreadSafePriorityQueue.Contains | src/job_orchestrator/queue/priority_queue.py:368-379 | true exactly when iteration lists the job |
| PriorityQueues.ThreadSafePriorityQueue.UpdatePriority | src/job_orchestrator/queue/priority_queue.py:381-426 | replaces the entry of a live job |
| PriorityQueues.ThreadSafePriorityQueue.Reschedule | src/job_orchestrator/queue/priority_queue.py:428-467 | replaces the entry of a live job |
| PriorityQueues.ThreadSafePriorityQueue.Clear | src/job_orchestrator/queue/priority_queue.py:469-482 | empties the queue, resets the counter and returns the former length |
| PriorityQueues.ThreadSafePriorityQueue.GetStats | src/job_orchestrator/queue/priority_queue.py:494-526 | all figures are exact: ready and scheduled jobs, which add up to the total size, live jobs by priority, heap entries and removed ids |
| PriorityQueues.ThreadSafePriorityQueue.Iterate | src/job_orchestrator/queue/priority_queue.py:541-552 | the sorted listing of the index |
| Schedulers.StepKeepsInv | src/job_orchestrator/scheduler/scheduler.py:132-393 | every step of the scheduler and its workers keeps each job in one place that agrees with its state, its attempts and its executions, and the queue clean |
| Schedulers.RunKeepsInv | src/job_orchestrator/scheduler/scheduler.py:132-547 | the same in every reachable state, for any number of workers and interleaved cancellations |
| Schedulers.EveryJobInItsPlaceIff | src/job_orchestrator/scheduler/scheduler.py:132-393 | in every run, with or without a maximum, every active job is in the queue once or with one worker exactly when each job whose retry met a full queue has been cancelled since; without a maximum always |
| Schedulers.NothingElseInPlaces | src/job_orchestrator/scheduler/scheduler.py:132-393 | queued live jobs are SCHEDULED, removed ones CANCELLED, finished ones nowhere; a job executes at most `max_retries` + 1 times |
| Schedulers.StepLosesIff | src/job_orchestrator/scheduler/scheduler.py:306-318 | a step makes a job SCHEDULED and held by nobody exactly when it is a failure to be retried while the queue is full; a cancellation alone ends that |
| Schedulers.RetryGetsLost | src/job_orchestrator/scheduler/scheduler.py:306-318 | a run with a maximum of one after which a job is SCHEDULED, not queued and with no worker |
| Schedulers.NoDuplicateEntries | src/job_orchestrator/scheduler/scheduler.py:132-181 | no id is ever twice in the heap, and only stored jobs are |
| Schedulers.CancelFromQueueTakesAway | src/job_orchestrator/scheduler/scheduler.py:384-393 | cancelling a queued job puts it out of reach of the workers |
| Schedulers.CancellableIff | src/job_orchestrator/scheduler/scheduler.py:377-387 | `cancel_job` succeeds exactly where the state machine allows CANCELLED |
| Schedulers.CancelledInQueueIsNeverHandedOut | src/job_orchestrator/scheduler/scheduler.py:358-393 | such a job is never handed out or executed again in any continuation |
| Schedulers.CancelPreventsExecutionIffQueued | src/job_orchestrator/scheduler/scheduler.py:358-393 | in every run, cancelling a SCHEDULED job keeps it from being executed in all continuations exactly when the queue contains it at that moment (or a full queue has lost it, which needs a maximum) |
| Schedulers.CancelledJobRuns | src/job_orchestrator/scheduler/scheduler.py:483-533 | a job handed out, then cancelled, is executed; its failure counts an attempt but no retry |
| Schedulers.RetryIsQueuedIffNotFull | src/job_orchestrator/scheduler/scheduler.py:306-318 | the retry push is ignored: the SCHEDULED job is queued exactly when the queue is not full |
| Schedulers.SubmitQueuesIffSchedulable | src/job_orchestrator/scheduler/scheduler.py:149-181 | a submitted job is queued exactly when it was PENDING or RETRYING; in another state it stays in the store unqueued |
| Schedulers.SubmitAnswersIff | src/job_orchestrator/scheduler/scheduler.py:132-181 | what `submit` answers, in this order: a known id, a maximum reached by the live jobs, a state that cannot be SCHEDULED; an accepted job is stored SCHEDULED and otherwise as given, and queued |
| Schedulers.StepAccounts | src/job_orchestrator/scheduler/scheduler.py:121-130 | every step keeps the completed and failed counters equal to the number of jobs in that state, and retried plus the retries prepared in vain equal to the sum of the attempts |
| Schedulers.CountersConserve | src/job_orchestrator/scheduler/scheduler.py:121-130 | submitted = completed + failed + cancelled + active, and the attempts are the retries counted and those prepared in vain |
| Schedulers.RetriedIsAttemptsIff | src/job_orchestrator/scheduler/scheduler.py:303-318 | the retried counter equals the sum of the attempts exactly when no failure with retries left was ever reported for a cancelled job |
| Schedulers.StepDecreasesRemaining | src/job_orchestrator/scheduler/scheduler.py:303-324 | the remaining work, a weighted sum of the attempts left over the active jobs, falls with every effective step |
| Schedulers.RetriesTerminate | src/job_orchestrator/scheduler/scheduler.py:521-533 | the effective steps of a run are bounded by the retries granted to the submitted jobs |
| Schedulers.Scheduler.Submit | src/job_orchestrator/scheduler/scheduler.py:132-181 | refuses known ids and a full queue unchanged, keeps an unschedulable job in the store, else stores, schedules and queues |
| Schedulers.HandsOutFirstDue | src/job_orchestrator/scheduler/scheduler.py:216-237 | in every run a worker gets a job exactly when one in the queue is due by its own `scheduled_at`, or its creation when none is set, and gets the one that comes before all other due jobs by priority, then time, then coming into the queue |
| Schedulers.RetryIsNotEarly | src/job_orchestrator/scheduler/scheduler.py:303-318 | in every run, once a failure with retries left is reported, the job is not handed out before the retry time, whatever happens until it fails again |
| Schedulers.FailureRetriesIff | src/job_orchestrator/scheduler/scheduler.py:521-533 | a RUNNING job that fails is SCHEDULED again with one attempt more, at the retry time and otherwise unchanged, exactly when the error is retryable and fewer than `max_retries` attempts were made; else it is FAILED |
| Schedulers.RetryIsDueFrom | src/job_orchestrator/scheduler/scheduler.py:303-318 | in every run a retried job that did not meet a full queue waits in it until it is handed out or cancelled, is due exactly from its retry time on and has the priority it had |
| Schedulers.TermsStay | src/job_orchestrator/scheduler/scheduler.py:132-393 | a job keeps the priority, the policy and the creation time it was submitted with in every continuation |
| Schedulers.AskingIsRun | src/job_orchestrator/scheduler/scheduler.py:216-237 | `get_next_job` with a timeout of zero makes the changes of a run of steps, one for each turn of the queue's loop, so that what holds in every run holds between and after its calls |
| Schedulers.RestartedHandsOutNothing | src/job_orchestrator/scheduler/scheduler.py:549-586 | over every sequence of `start` and `stop`: the scheduler is running exactly after a start, and hands out jobs exactly when it is running and was never stopped before |
| Schedulers.Scheduler.Start | src/job_orchestrator/scheduler/scheduler.py:549-563 | the scheduler is running; a queue shut down by an earlier stop stays so; nothing else changes |
| Schedulers.Scheduler.Stop | src/job_orchestrator/scheduler/scheduler.py:565-582 | a running scheduler stops running and its queue is shut down for good; one that is not running is left alone |
| Schedulers.Scheduler.GetNextJob | src/job_orchestrator/scheduler/scheduler.py:216-237 | with a timeout of zero: the outcome and the change of the queue's loop, and None unchanged when not running or shut down |
| Schedulers.Scheduler.BeginRun | src/job_orchestrator/scheduler/scheduler.py:483-497 | the runner's transition of the stored job |
| Schedulers.Scheduler.CompleteJob | src/job_orchestrator/scheduler/scheduler.py:239-264 | completes exactly RUNNING jobs, raises for others |
| Schedulers.Scheduler.FailJob | src/job_orchestrator/scheduler/scheduler.py:278-334 | retries or fails the job; raises, with the attempt already counted, when the state forbids it; the retry time is now plus the policy's delay |
| Schedulers.Scheduler.CancelJob | src/job_orchestrator/scheduler/scheduler.py:358-393 | cancels exactly jobs in PENDING, SCHEDULED or RETRYING and removes them from the queue |
| DagOnScheduler.EndedWasRunning | src/job_orchestrator/scheduler/scheduler.py:268-276 | a job of the DAG that the scheduler completes or fails for good is one the executor counts as running |
| DagOnScheduler.CompletionKeepsTie | src/job_orchestrator/scheduler/scheduler.py:239-276 | on a completion none of the submissions of newly ready jobs is refused, and the agreement holds again after them |
| DagOnScheduler.StepKeepsTie | src/job_orchestrator/scheduler/scheduler.py:132-393 | every step of scheduler, workers and executor keeps the executor's sets in agreement with the states in the store, and what the executor is told is well-formed |
| DagOnScheduler.CancelDagReachesStore | src/job_orchestrator/scheduler/dag_executor.py:333-343 | cancelling the DAG cancels in the store exactly its SCHEDULED jobs and changes no other job |
| DagOnScheduler.CombinedRunIsExecutorRun | src/job_orchestrator/scheduler/scheduler.py:253-276 | in every combined run what the executor hears is a run of its own, which discharges the assumption of its theorems |
| DagOnScheduler.DagStatusTellsJobStates | src/job_orchestrator/scheduler/scheduler.py:183-214 | an acyclic DAG started on a scheduler that does not know its jobs, and not cancelled as a whole, is COMPLETED exactly when the store has all its jobs COMPLETED, and FAILED exactly when one has FAILED there and fail-fast is on or no job is still running; while it is RUNNING a job is |
| DagOnScheduler.GoesOnIff | src/job_orchestrator/scheduler/scheduler.py:358-393 | from every tied state some continuation without `cancel_dag` changes the execution exactly when one of its running jobs is not CANCELLED in the store, and then one is queued or with a worker |
| DagOnScheduler.RunningGoesOn | src/job_orchestrator/scheduler/scheduler.py:216-276 | a running job that is not cancelled can be handed out, begun and completed, whatever else is queued |
| DagOnScheduler.StaysStalled | src/job_orchestrator/scheduler/scheduler.py:358-393 | once all running jobs are CANCELLED in the store, no sequence of steps without `cancel_dag` changes the execution |
| DagOnScheduler.CancelledJobStalls | src/job_orchestrator/scheduler/scheduler.py:384-393 | cancelling the only running job while it is queued leaves the DAG as it is for good |
| DagOnScheduler.StartedAlone | src/job_orchestrator/scheduler/scheduler.py:183-214 | a DAG of one job is in that situation, RUNNING, as soon as it is started |
| TtlCaches.RunKeepsValid | src/core/cache.py:33-39 | the cache never holds two entries of a key nor more than its capacity |
| TtlCaches.SmallerHitsLess | src/core/cache.py:21-31 | every hit of a smaller cache is a hit of the larger with the same value |
| TtlCaches.LargerCacheIncludesSmaller | src/core/cache.py:21-39 | over any timed sequence a smaller cache holds a part of the larger one's entries in the same order, and counts no more hits |
| TtlCaches.HitRateGrowsWithCapacity | src/core/cache.py:41-44 | more room never lowers the hit rate |
| TtlCaches.HoldsLastSets | src/core/cache.py:33-37 | the cache holds nothing but the last entry set for a key |
| TtlCaches.HitsAreFresh | src/core/cache.py:21-31 | a hit returns the value last set, less than the time-to-live ago |
| TtlCaches.RoomyCacheHitsExactly | src/core/cache.py:21-39 | with room for the keys set since the last clear and a clock that does not go back, a get hits exactly when the key was last set less than the time-to-live ago |
| TtlCaches.ListsByLastUse | src/core/cache.py:21-39 | over every sequence of operations the cache lists its entries from the least to the most recently set or hit |
| TtlCaches.SetEvictsLeastRecent | src/core/cache.py:33-39 | a set evicts exactly when the cache is full and the key new, and then exactly the entry whose last use is longest ago |
| TtlCaches.GetDropsExpired | src/core/cache.py:21-31 | a get leaves its key in the cache exactly if it was there and younger than the time-to-live, and all other entries as they are |
| TtlCaches.CountersCountGets | src/core/cache.py:21-49 | the counters tell how many gets there were since the last clear and how many of them hit |
| TtlCaches.HitRateIsShare | src/core/cache.py:41-44 | the hit rate times the gets counted is the number of hits |
| TtlCaches.TTLCache.Get | src/core/cache.py:21-31 | the value and the state after a get |
| TtlCaches.TTLCache.Set | src/core/cache.py:33-39 | the state after a set |
| TtlCaches.TTLCache.Clear | src/core/cache.py:46-49 | the state after a clear |
| MemoryLocks.StepHonours | src/job_orchestrator/locking/memory.py:148-253 | every operation keeps the unexpired locks of the table the same as the claims of the owners, with owner and expiry; the claims are told by the calls alone |
| MemoryLocks.HoldsNeverOverlap | src/job_orchestrator/locking/memory.py:148-253 | at no moment of any timed history do two owners both count on a lock of one resource |
| MemoryLocks.AnswersFollowClaims | src/job_orchestrator/locking/memory.py:148-324 | in every timed history: acquire succeeds exactly when no other owner has an unexpired claim, extend exactly when the owner has one, `is_locked` exactly when anybody has, `get_lock_info` names exactly that owner, `lock_count` counts those resources, and release succeeds for who has a claim |
| MemoryLocks.LockLastsExactly | src/job_orchestrator/locking/memory.py:148-253 | in every timed history a granted or extended lock is its owner's exactly until the call's time plus the time-to-live, and without one for ever, until the owner acts again; a reentrant acquire without one leaves the end as it was; `is_locked` agrees if nobody acquires meanwhile |
| MemoryLocks.EarlyExpiryIsInvisible | src/job_orchestrator/locking/memory.py:255-324 | removing expired locks early, whichever and whenever, changes no later answer of acquire, extend, is_locked, get_lock_info or lock_count |
| MemoryLocks.ReleaseTellsSweepIff | src/job_orchestrator/locking/memory.py:196-223 | release does tell: its answer changes exactly when the lock it names has expired, matches the owner and was swept |
| MemoryLocks.CleanupCounts | src/job_orchestrator/locking/memory.py:301-324 | what a clean-up removes and what `lock_count` counts make up the table, and a second clean-up removes nothing |
| MemoryLocks.InMemoryLockManager.Acquire | src/job_orchestrator/locking/memory.py:148-177 | one non-blocking try, reentrant for the owner; the record is reused when reentrant |
| MemoryLocks.InMemoryLockManager.Release | src/job_orchestrator/locking/memory.py:196-223 | releases exactly a held lock of the given owner, or of any when none is given |
| MemoryLocks.InMemoryLockManager.Extend | src/job_orchestrator/locking/memory.py:225-253 | extends exactly an unexpired lock of the owner and drops an expired one |
| MemoryLocks.InMemoryLockManager.IsLocked | src/job_orchestrator/locking/memory.py:255-276 | the answer, and the removal of an expired lock |
| MemoryLocks.InMemoryLockManager.GetLockInfo | src/job_orchestrator/locking/memory.py:278-299 | the unexpired record, and the removal of an expired one |
| MemoryLocks.InMemoryLockManager.CleanupExpired | src/job_orchestrator/locking/memory.py:301-324 | removes exactly the expired locks and returns their number |
| MemoryLocks.InMemoryLockManager.LockCount | src/job_orchestrator/locking/memory.py:357-365 | the number of unexpired locks |
| RedlockProtocol.QuorumsMeet | src/job_orchestrator/locking/redis_lock.py:190-193 | any two quorums share a node |
| RedlockProtocol.QuorumIsMajority | src/job_orchestrator/locking/redis_lock.py:190-193 | a quorum is reached exactly when more than half of the nodes are counted |
| RedlockProtocol.TrySetOk | src/job_orchestrator/locking/redis_lock.py:296-300 | a SET, whether answered, lost or not carried out, keeps the invariant that counted nodes guard the attempt |
| RedlockProtocol.StampOk | src/job_orchestrator/locking/redis_lock.py:239-251 | the stamped expiry lies within what the counted nodes guard, given the margin |
| RedlockProtocol.TryExtendOk | src/job_orchestrator/locking/redis_lock.py:36-45 | the extend script guards the old expiry and the new one |
| RedlockProtocol.TryDeleteOk | src/job_orchestrator/locking/redis_lock.py:24-33 | the release script touches only the owner's keys |
| RedlockProtocol.StepOk | src/job_orchestrator/locking/redis_lock.py:195-420 | every step of any client, every expiry and every passage of time keeps the invariant |
| RedlockProtocol.MutualExclusion | src/job_orchestrator/locking/redis_lock.py:190-264 | in every run, for any number of clients and nodes, two owners never both hold a lock whose expiry is in the future |
| RedlockProtocol.WithoutMarginUnsafe | src/job_orchestrator/locking/redis_lock.py:237-251 | if early expiry plus the delay between the two clock readings exceeds the drift margin, a run exists in which two owners hold the lock |
| RedlockProtocol.SafeIffMarginCovers | src/job_orchestrator/locking/redis_lock.py:237-251 | the protocol excludes in every run exactly when the margin covers early expiry and that delay, for every usable time-to-live |
| RedlockProtocol.HeldLockBlocksOthers | src/job_orchestrator/locking/redis_lock.py:374-420 | while a lock is held, and after a successful extend until its start plus the time-to-live less the margin, no other owner counts more than half of the nodes while that is worth anything |
| RedlockProtocol.ReleaseLeavesNoKey | src/job_orchestrator/locking/redis_lock.py:312-318 | in every run a release whose commands were all carried out leaves no key of its owner |
| RedlockProtocol.StepsSpareOthersKeys | src/job_orchestrator/locking/redis_lock.py:24-45 | no step of a client changes another owner's key |
| RedlockManagers.FailedAttemptLeavesNothing | src/job_orchestrator/locking/redis_lock.py:285-318 | a failed attempt whose releases are carried out removes the owner's keys and restores every other node |
| RedlockManagers.LostReplyKeepsKeyIff | src/job_orchestrator/locking/redis_lock.py:266-283 | with one node a failed attempt leaves the owner's key exactly when it was there or the reply was lost |
| RedlockManagers.ForeignKeysUntouched | src/job_orchestrator/locking/redis_lock.py:24-45 | whatever is lost, no command of an owner changes the key of another |
| RedlockManagers.ExpiryWithinMargin | src/job_orchestrator/locking/redis_lock.py:227-251 | a returned expiry belongs to the last attempt made, which has a quorum of the owner's keys, and equals its start plus the time-to-live less the margin, plus the stamping delay |
| RedlockManagers.AttemptWinsIff | src/job_orchestrator/locking/redis_lock.py:190-251 | an attempt returns a lock exactly when more than half of the nodes were free and answered and the time-to-live less the elapsed time and the margin is positive, and the expiry it returns |
| RedlockManagers.AcquireReturnsFirstWin | src/job_orchestrator/locking/redis_lock.py:219-264 | as long as failed attempts are taken back, `acquire` returns exactly the first attempt that wins before one meets the deadline, and otherwise leaves the nodes as they were |
| RedlockManagers.AttemptIsRun | src/job_orchestrator/locking/redis_lock.py:227-254 | an undisturbed attempt, with any outcomes, is a run of the protocol with the same nodes, client state and expiry |
| RedlockManagers.AcquireIsRun | src/job_orchestrator/locking/redis_lock.py:219-264 | so is `acquire` with all its attempts |
| RedlockManagers.AcquireExcludes | src/job_orchestrator/locking/redis_lock.py:219-264 | from any reachable state, if `acquire` returns a lock while another owner holds one, then one of the two has expired when the attempt that returned it stamps the lock |
| RedlockManagers.ReleaseIsRun | src/job_orchestrator/locking/redis_lock.py:339-372 | `release` by the holder is a run of the protocol that leaves the client with nothing |
| RedlockManagers.ExtendIsRun | src/job_orchestrator/locking/redis_lock.py:374-420 | an `extend` that does not shorten the lock is a run of the protocol; true protects the lock until its start plus the time-to-live less the margin |
| RedlockManagers.RedisLockManager.SetOnNodes | src/job_orchestrator/locking/redis_lock.py:296-302 | the loop of SETs changes exactly the free nodes it reaches and counts the granted ones |
| RedlockManagers.RedisLockManager.ReleaseAll | src/job_orchestrator/locking/redis_lock.py:312-372 | deletes the owner's keys where the command is carried out and reports whether a node answered so |
| RedlockManagers.RedisLockManager.TryAcquire | src/job_orchestrator/locking/redis_lock.py:266-310 | acquired exactly when more than half of the nodes were free and said so; otherwise released, unless there is one node |
| RedlockManagers.RedisLockManager.MakeAttempt | src/job_orchestrator/locking/redis_lock.py:228-254 | one attempt: a lock exactly when more than half of the nodes were free and answered, with time-to-live less elapsed time and margin positive; the nodes, and the release otherwise |
| RedlockManagers.RedisLockManager.Acquire | src/job_orchestrator/locking/redis_lock.py:219-264 | the retry loop: nodes and expiry are those of the attempts in order |
| RedlockManagers.RedisLockManager.Extend | src/job_orchestrator/locking/redis_lock.py:388-420 | the loop of extends: extended exactly when more than half of the nodes answered for the owner's key; a time-to-live that is not positive deletes the keys |

## Left out

- Dags.Dag: the order of nodes in the dictionaries, `max_parallel`, rollback, metadata, ready-job queries and serialization.
- ExecutionPlans.PlanLevels: the order of the jobs within a level, which iterating over a set leaves open.
- Dags.MutatorsKeepLists: jobs that are added with a list of their own already filled; for those the lists are not exact (`NewNodeKeepsListsIff`).
- DagExecution.DagExecutor.CancelExecution: returns the jobs it asks the scheduler to cancel; the effect there is in `DagOnScheduler`.
- DagExecution.DagExecution.FailDag: counts the callback; what a callback does, and the error texts and times, are not modelled.
- PriorityQueues.ThreadSafePriorityQueue.PopNowait: a timeout of zero; with another timeout the call waits between its turns. `peek` and `peek_ready` are not modelled.
- PriorityQueues.ThreadSafePriorityQueue.Push: entries hold ids, and the job's priority and time are arguments; the condition variable and the type check are not modelled.
- PriorityQueues.ThreadSafePriorityQueue.UpdatePriority: the assignment to the job's own priority; refinement of the sorted listing is not claimed, because it fails (see `RepushDeliversTwice`).
- PriorityQueues.ThreadSafePriorityQueue.Reschedule: the assignment to the job's own time, and the refinement likewise.
- PriorityQueues.ThreadSafePriorityQueue.GetStats: the names of the priorities.
- Schedulers.Scheduler.GetNextJob: a timeout of zero; with another timeout the queue waits between its turns.
- Schedulers.Scheduler.FailJob: the dead letter queue, error texts and callbacks; the notification of the DAG executor is in `DagOnScheduler`.
- Schedulers.Scheduler.CompleteJob: results, times and callbacks; the notification of the DAG executor is in `DagOnScheduler`.
- Schedulers.Scheduler.Stop: waiting for the scheduler's thread and the clean-up thread of the dead letter queue.
- Schedulers.Scheduler.Submit: jobs are records in the store; that the queue's entries refer to the same objects is replaced by looking the id up.
- Schedulers.EveryJobInItsPlaceIff: assumes PENDING submissions, since others are stranded (see `SubmitQueuesIffSchedulable`).
- DagOnScheduler.DagStatusTellsJobStates: one DAG, whose jobs nobody else submits, on a queue without a maximum.
- JobStates.Transition: hooks.
- JobStates.EnterRunning: loading and calling the function, start and end times, and the result record.
- TtlCaches.TTLCache.Get: the asynchronous lock; the two calls are atomic.
- MemoryLocks.InMemoryLockManager.Acquire: waiting with a timeout, generated owner names, metadata; each operation reads the clock once.
- MemoryLocks.HoldsNeverOverlap: excludes forced release without an owner and `clear`.
- MemoryLocks.AnswersFollowClaims: likewise; a forced release takes a lock from an owner who is not told.
- RedlockManagers.RedisLockManager.Acquire: no other client acts between its commands here; interleaving is the subject of `RedlockProtocol`.
- RedlockManagers.RedisLockManager.ReleaseAll: forced release without an owner, and the fallback without scripts.
- RedlockManagers.AcquireReturnsFirstWin: failed attempts whose deletes are not all carried out, as their keys stand in the way of the next attempt; `Retried` covers them.
- RedlockProtocol.MutualExclusion: nodes that lose their data, and managers connected to different lists of nodes.
- The file lock, the thread, process and async workers, the command line, logging, configuration and job serialization.
