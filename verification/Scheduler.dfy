/** The scheduler of `scheduler/scheduler.py`, over the job store, the priority queue and the retry policy. */
module Schedulers {
  import opened Collections
  import opened Wrappers
  import opened BinaryHeaps
  import opened JobStates
  import opened PriorityQueues
  import opened RetryPolicies

  /** A stored job. `executions` counts how often its function was executed; the program does not record that. */
  datatype Job = Job(
    state: JobState,
    attempt: nat,
    policy: RetryPolicy,
    priority: int,
    createdAt: real,
    scheduledAt: Option<real>,
    executions: nat)

  datatype Stats = Stats(submitted: nat, completed: nat, failed: nat, retried: nat)

  /** The store, with its ids in the order of submission, the queue and the counters. */
  datatype Core = Core(order: seq<JobId>, jobs: map<JobId, Job>, queue: QueueState, stats: Stats)

  function EntryTime(job: Job): real {
    if job.scheduledAt.Some? then job.scheduledAt.value else job.createdAt
  }

  // ---- the operations, on values

  ghost function Enqueued(maxSize: Option<nat>, q: QueueState, id: JobId, job: Job): QueueState {
    Apply(maxSize, q, QueueOp.Push(id, job.priority, EntryTime(job)))
  }

  datatype SubmitResult = Accepted | AlreadyExists | QueueFull | NotSchedulable

  ghost function SubmitOutcome(maxSize: Option<nat>, c: Core, id: JobId, job: Job): SubmitResult {
    if id in c.jobs then AlreadyExists
    else if Full(maxSize, c.queue) then QueueFull
    else if !CanTransition(job.state, Scheduled) then NotSchedulable
    else Accepted
  }

  /** `submit`: a job that cannot become SCHEDULED is already in the store when the transition raises. */
  ghost function Submitted(maxSize: Option<nat>, c: Core, id: JobId, job: Job): Core {
    match SubmitOutcome(maxSize, c, id, job)
    case AlreadyExists => c
    case QueueFull => c
    case NotSchedulable => c.(order := c.order + [id], jobs := c.jobs[id := job])
    case Accepted =>
      var stored := job.(state := Scheduled);
      c.(order := c.order + [id], jobs := c.jobs[id := stored], queue := Enqueued(maxSize, c.queue, id, stored),
         stats := c.stats.(submitted := c.stats.submitted + 1))
  }

  /** `get_next_job` without waiting. */
  ghost function Next(c: Core, now: real): Popped {
    Scan(c.queue, now)
  }

  /** The start of `run_job`: the runner makes the job RUNNING where it can and executes its function. */
  ghost function Begun(c: Core, id: JobId): Core {
    if id !in c.jobs then c
    else
      var job := c.jobs[id];
      c.(jobs := c.jobs[id := job.(state := StateWhileRunning(job.state), executions := job.executions + 1)])
  }

  /** The end of a successful `run_job`, and `complete_job`. */
  ghost function CompletedJob(c: Core, id: JobId): Core {
    if id !in c.jobs || !CanTransition(c.jobs[id].state, Completed) then c
    else c.(jobs := c.jobs[id := c.jobs[id].(state := Completed)],
            stats := c.stats.(completed := c.stats.completed + 1))
  }

  predicate Retries(job: Job, retryable: bool) {
    ShouldRetry(job.policy, job.attempt, Some(retryable))
  }

  /**
   * The end of a failed `run_job`, and `fail_job`. The attempt counter is increased before the transition is tried,
   * and the result of the push is ignored.
   */
  ghost function FailedJob(maxSize: Option<nat>, c: Core, id: JobId, retryable: bool, retryAt: real): Core {
    if id !in c.jobs then c
    else if Retries(c.jobs[id], retryable) then
      var job := c.jobs[id];
      var next := job.(attempt := job.attempt + 1, scheduledAt := Some(retryAt));
      if !CanTransition(job.state, Retrying) then c.(jobs := c.jobs[id := next])
      else
        var queued := next.(state := Scheduled);
        c.(jobs := c.jobs[id := queued], queue := Enqueued(maxSize, c.queue, id, queued),
           stats := c.stats.(retried := c.stats.retried + 1))
    else if !CanTransition(c.jobs[id].state, Failed) then c
    else c.(jobs := c.jobs[id := c.jobs[id].(state := Failed)], stats := c.stats.(failed := c.stats.failed + 1))
  }

  predicate Cancellable(s: JobState) {
    s in {Pending, Scheduled, Retrying}
  }

  /** `cancel_job` succeeds exactly where the state machine allows CANCELLED. */
  lemma CancellableIff(s: JobState)
    ensures Cancellable(s) <==> CanTransition(s, Cancelled)
  {}

  ghost function CancelledJob(c: Core, id: JobId): Core {
    if id !in c.jobs || !Cancellable(c.jobs[id].state) then c
    else c.(jobs := c.jobs[id := c.jobs[id].(state := Cancelled)], queue := PriorityQueues.Removed(c.queue, id))
  }

  // ---- the scheduler and its workers

  /** `handed` are the jobs workers hold but have not begun, `executing` those whose function is running. */
  datatype World = World(
    maxSize: Option<nat>,
    core: Core,
    handed: multiset<JobId>,
    executing: multiset<JobId>,
    uncountedRetries: nat)

  datatype Event =
    | Submit(id: JobId, job: Job)
    | GetNext(now: real)
    | Begin(id: JobId)
    | Succeed(id: JobId)
    | Fail(id: JobId, retryable: bool, retryAt: real)
    | Cancel(id: JobId)

  ghost predicate Fresh(job: Job) {
    job.state == Pending && job.attempt == 0 && job.executions == 0
  }

  /** Workers begin only jobs handed to them and finish only jobs they began; new jobs are submitted. */
  ghost predicate WellFormed(w: World, e: Event) {
    match e
    case Submit(_, job) => Fresh(job)
    case GetNext(_) => true
    case Begin(id) => id in w.handed && id in w.core.jobs
    case Succeed(id) => id in w.executing && id in w.core.jobs
    case Fail(id, _, _) => id in w.executing && id in w.core.jobs
    case Cancel(_) => true
  }

  ghost function Step(w: World, e: Event): World {
    var c := w.core;
    match e
    case Submit(id, job) => w.(core := Submitted(w.maxSize, c, id, job))
    case GetNext(now) =>
      var p := Next(c, now);
      w.(core := c.(queue := p.rest),
         handed := if p.ready.Some? then w.handed + multiset{p.ready.value.jobId} else w.handed)
    case Begin(id) =>
      w.(core := Begun(c, id), handed := w.handed - multiset{id}, executing := w.executing + multiset{id})
    case Succeed(id) => w.(core := CompletedJob(c, id), executing := w.executing - multiset{id})
    case Fail(id, retryable, retryAt) =>
      w.(core := FailedJob(w.maxSize, c, id, retryable, retryAt), executing := w.executing - multiset{id},
         uncountedRetries := w.uncountedRetries +
                             if id in c.jobs && UncountedRetry(c.jobs[id], retryable) then 1 else 0)
    case Cancel(id) => w.(core := CancelledJob(c, id))
  }

  /** A retry prepared for a job cancelled while it was with its worker: the attempt counts, the retry does not. */
  ghost predicate UncountedRetry(job: Job, retryable: bool) {
    Retries(job, retryable) && !CanTransition(job.state, Retrying)
  }

  ghost function Initial(max: Option<nat>): World {
    World(max, Core([], map[], Empty(), Stats(0, 0, 0, 0)), multiset{}, multiset{}, 0)
  }

  ghost predicate IsRun(max: Option<nat>, events: seq<Event>) {
    var n := |events| - 1;
    events == [] || (IsRun(max, events[..n]) && WellFormed(After(max, events[..n]), events[n]))
  }

  ghost function After(max: Option<nat>, events: seq<Event>): World {
    if events == [] then Initial(max) else Step(After(max, events[..|events| - 1]), events[|events| - 1])
  }

  // ---- what holds in every reachable state

  function MaxRetries(job: Job): nat {
    if job.policy.maxRetries > 0 then job.policy.maxRetries else 0
  }

  /**
   * A job is in the queue once, or with one worker, or done; where it is agrees with its state and its counters. Only
   * with a bounded queue can a job be SCHEDULED and nowhere, after a retry.
   */
  ghost predicate JobOk(bounded: bool, indexed: bool, live: bool, handed: nat, executing: nat, job: Job) {
    && job.attempt <= MaxRetries(job)
    && (live ==> indexed)
    && (if indexed then 1 else 0) + handed + executing <= 1
    && match job.state
       case Scheduled =>
         && executing == 0 && job.executions == job.attempt
         && (live || handed == 1 || (bounded && !indexed && job.attempt > 0))
       case Running => executing == 1 && job.executions == job.attempt + 1
       case Completed => !indexed && handed + executing == 0 && job.executions == job.attempt + 1
       case Failed => !indexed && handed + executing == 0 && job.executions == job.attempt + 1
       case Cancelled =>
         && !live && job.executions <= job.attempt + 1
         && (handed == 1 ==> job.executions == job.attempt)
         && (executing == 1 ==> job.executions == job.attempt + 1)
       case _ => false
  }

  ghost predicate Placed(w: World, id: JobId) {
    var q := w.core.queue;
    if id in w.core.jobs then
      JobOk(w.maxSize.Some?, id in q.entries, Live(q, id), w.handed[id], w.executing[id], w.core.jobs[id])
    else id !in q.entries && w.handed[id] == 0 && w.executing[id] == 0
  }

  ghost predicate SInv(w: World) {
    && Inv(w.core.queue) && Clean(w.core.queue)
    && (forall id {:trigger Placed(w, id)} :: Placed(w, id))
  }

  /** How a pop changes the index: only the handed-out job leaves it alive. */
  lemma PopIndex(q: QueueState, now: real)
    requires Inv(q) && Clean(q)
    ensures var p := Scan(q, now);
            && Inv(p.rest) && Clean(p.rest)
            && p.rest.entries.Keys <= q.entries.Keys
            && (p.ready.Some? ==> Live(q, p.ready.value.jobId) && p.ready.value.jobId !in p.rest.entries)
            && (forall id :: Live(p.rest, id) <==> Live(q, id) && !(p.ready.Some? && p.ready.value.jobId == id))
  {
    var p := Scan(q, now);
    ScanKeepsWhole(q, now);
    ScanKeepsClean(q, now);
    ScanForgets(q, now);
    ScanTakesFirstDue(q, now);
    IterationIsSortedIndex(q);
    IterationIsSortedIndex(p.rest);
    var list, rest, k := Iteration(q), Iteration(p.rest), FirstDue(Iteration(q), now);
    if k < |list| {
      TakenOut(list, k);
    }
    forall id ensures Live(p.rest, id) <==> Live(q, id) && !(p.ready.Some? && p.ready.value.jobId == id) {
      if Live(q, id) {
        assert q.entries[id] in list;
      }
      if Live(p.rest, id) {
        assert p.rest.entries[id] in rest;
      }
    }
  }

  lemma TakenOut(list: seq<QueueEntry>, k: nat)
    requires Ascending(list) && k < |list|
    ensures forall e :: e in list[..k] + list[k + 1..] <==> e in list && e != list[k]
  {
    var rest := list[..k] + list[k + 1..];
    forall e ensures e in rest <==> e in list && e != list[k] {
      if e in list && e != list[k] {
        var i :| 0 <= i < |list| && list[i] == e;
        assert rest[if i < k then i else i - 1] == e;
      }
      if e in rest {
        var i :| 0 <= i < |rest| && rest[i] == e;
        assert list[if i < k then i else i + 1] == e;
      }
    }
  }

  /** Pushing an unindexed job. */
  lemma EnqueuedIndex(maxSize: Option<nat>, q: QueueState, id: JobId, job: Job)
    requires Inv(q) && Clean(q) && id !in q.entries
    ensures var t := Enqueued(maxSize, q, id, job);
            && Inv(t) && Clean(t)
            && (Live(t, id) <==> !Full(maxSize, q)) && (id in t.entries <==> !Full(maxSize, q))
            && (forall other :: other != id ==>
                  (other in t.entries <==> other in q.entries) && (Live(t, other) <==> Live(q, other)))
  {
    PushedKeepsInv(q, id, job.priority, EntryTime(job));
    PushKeepsCleanIffUnindexed(q, id, job.priority, EntryTime(job));
  }

  lemma SubmitKeepsInv(w: World, id: JobId, job: Job)
    requires SInv(w) && Fresh(job)
    ensures SInv(Step(w, Submit(id, job)))
  {
    assert Placed(w, id);
    if SubmitOutcome(w.maxSize, w.core, id, job) == Accepted {
      EnqueuedIndex(w.maxSize, w.core.queue, id, job.(state := Scheduled));
      var w' := Step(w, Submit(id, job));
      forall other {:trigger Placed(w', other)} ensures Placed(w', other) {
        assert Placed(w, other);
      }
    }
  }

  lemma GetNextKeepsInv(w: World, now: real)
    requires SInv(w)
    ensures SInv(Step(w, GetNext(now)))
  {
    var q, p := w.core.queue, Next(w.core, now);
    PopIndex(q, now);
    var w' := Step(w, GetNext(now));
    forall id {:trigger Placed(w', id)} ensures Placed(w', id) {
      assert Placed(w, id);
      assert Live(p.rest, id) <==> Live(q, id) && !(p.ready.Some? && p.ready.value.jobId == id);
    }
  }

  lemma WorkKeepsInv(w: World, e: Event)
    requires SInv(w) && WellFormed(w, e) && (e.Begin? || e.Succeed?)
    ensures SInv(Step(w, e))
  {
    assert Placed(w, e.id);
    var w' := Step(w, e);
    forall other {:trigger Placed(w', other)} ensures Placed(w', other) {
      assert Placed(w, other);
    }
  }

  lemma StaysPlaced(w: World, w': World, id: JobId)
    requires Placed(w, id) && SameJob(w, w', id) && w'.maxSize == w.maxSize
    requires id in w'.core.queue.entries <==> id in w.core.queue.entries
    requires Live(w'.core.queue, id) <==> Live(w.core.queue, id)
    ensures Placed(w', id)
  {}

  lemma FailedIsPlaced(w: World, id: JobId, retryable: bool, retryAt: real)
    requires SInv(w) && WellFormed(w, Fail(id, retryable, retryAt))
    ensures var w' := Step(w, Fail(id, retryable, retryAt));
            Placed(w', id) && Inv(w'.core.queue) && Clean(w'.core.queue)
  {
    assert Placed(w, id);
    var job := w.core.jobs[id];
    EnqueuedIndex(w.maxSize, w.core.queue, id,
                  job.(attempt := job.attempt + 1, scheduledAt := Some(retryAt), state := Scheduled));
  }

  lemma FailKeepsInv(w: World, id: JobId, retryable: bool, retryAt: real)
    requires SInv(w) && WellFormed(w, Fail(id, retryable, retryAt))
    ensures SInv(Step(w, Fail(id, retryable, retryAt)))
  {
    var e := Fail(id, retryable, retryAt);
    FailedIsPlaced(w, id, retryable, retryAt);
    forall other {:trigger Placed(Step(w, e), other)} ensures Placed(Step(w, e), other) {
      assert Placed(w, other);
      if other != id {
        StepLeavesOthers(w, e, other);
        StepLeavesOtherEntries(w, e, other);
        StaysPlaced(w, Step(w, e), other);
      }
    }
  }

  lemma CancelKeepsInv(w: World, id: JobId)
    requires SInv(w)
    ensures SInv(Step(w, Cancel(id)))
  {
    assert Placed(w, id);
    var w' := Step(w, Cancel(id));
    forall other {:trigger Placed(w', other)} ensures Placed(w', other) {
      assert Placed(w, other);
    }
  }

  lemma StepKeepsInv(w: World, e: Event)
    requires SInv(w) && WellFormed(w, e)
    ensures SInv(Step(w, e))
  {
    match e
    case Submit(id, job) => SubmitKeepsInv(w, id, job);
    case GetNext(now) => GetNextKeepsInv(w, now);
    case Begin(_) => WorkKeepsInv(w, e);
    case Succeed(_) => WorkKeepsInv(w, e);
    case Fail(id, retryable, retryAt) => FailKeepsInv(w, id, retryable, retryAt);
    case Cancel(id) => CancelKeepsInv(w, id);
  }

  lemma {:induction false} RunKeepsInv(max: Option<nat>, events: seq<Event>)
    requires IsRun(max, events)
    ensures SInv(After(max, events))
  {
    if events != [] {
      RunKeepsInv(max, events[..|events| - 1]);
      StepKeepsInv(After(max, events[..|events| - 1]), events[|events| - 1]);
    }
  }

  // ---- consequences

  predicate Active(s: JobState) {
    !Terminal(s)
  }

  /** An active job is in the queue once or with one worker. */
  ghost predicate InItsPlace(w: World, id: JobId) {
    id in w.core.jobs && Active(w.core.jobs[id].state) ==>
      (if Live(w.core.queue, id) then 1 else 0) + w.handed[id] + w.executing[id] == 1
  }

  /** The queue and the workers hold active jobs only, apart from cancelled ones a worker had before. */
  lemma NothingElseInPlaces(max: Option<nat>, events: seq<Event>, id: JobId)
    requires IsRun(max, events) && id in After(max, events).core.jobs
    ensures var w := After(max, events); var q, job := w.core.queue, w.core.jobs[id];
            && (Live(q, id) ==> job.state == Scheduled)
            && (job.state in {Completed, Failed} ==> !Live(q, id) && w.handed[id] + w.executing[id] == 0)
            && (id in q.removed ==> job.state == Cancelled && w.handed[id] + w.executing[id] == 0)
            && job.state in {Scheduled, Running, Completed, Failed, Cancelled}
            && job.executions <= MaxRetries(job) + 1
  {
    RunKeepsInv(max, events);
    assert Placed(After(max, events), id);
  }

  /** The heap never holds two entries of one job, and only entries of stored jobs. */
  lemma NoDuplicateEntries(max: Option<nat>, events: seq<Event>, i: nat, j: nat)
    requires IsRun(max, events) && i < j < |After(max, events).core.queue.items|
    ensures var w := After(max, events); var items := w.core.queue.items;
            items[i].jobId != items[j].jobId && items[i].jobId in w.core.jobs
  {
    RunKeepsInv(max, events);
    var w := After(max, events);
    var items := w.core.queue.items;
    assert items[i] in items && items[j] in items && Less(items[i], items[j]);
    assert Placed(w, items[i].jobId);
  }

  /** The job is cancelled and no worker has it. */
  ghost predicate Away(w: World, id: JobId) {
    && id in w.core.jobs && w.core.jobs[id].state == Cancelled
    && w.handed[id] == 0 && w.executing[id] == 0
  }

  lemma StepKeepsAway(w: World, e: Event, id: JobId)
    requires SInv(w) && WellFormed(w, e) && Away(w, id)
    ensures Away(Step(w, e), id)
    ensures Step(w, e).core.jobs[id] == w.core.jobs[id]
  {
    assert Placed(w, id);
    if e.GetNext? {
      PopIndex(w.core.queue, e.now);
    } else if e.id != id {
      StepLeavesOthers(w, e, id);
    } else {
      assert e.Submit? || e.Cancel?;
    }
  }

  lemma LastOfRun(max: Option<nat>, events: seq<Event>, more: seq<Event>)
    requires IsRun(max, events + more) && more != []
    ensures var n := |more| - 1; var before := events + more[..n];
            && IsRun(max, before) && WellFormed(After(max, before), more[n])
            && After(max, events + more) == Step(After(max, before), more[n])
  {
    var all, n := events + more, |events + more| - 1;
    assert all[..n] == events + more[..|more| - 1] && all[n] == more[|more| - 1];
  }

  /** Such a job is never handed out or executed again, whatever follows. */
  lemma {:induction false} CancelledInQueueIsNeverHandedOut(max: Option<nat>, w: World, events: seq<Event>,
                                                            more: seq<Event>, id: JobId)
    requires IsRun(max, events + more) && After(max, events) == w && Away(w, id)
    ensures Away(After(max, events + more), id)
    ensures After(max, events + more).core.jobs[id].executions == w.core.jobs[id].executions
    decreases |more|
  {
    if more == [] {
      assert events + more == events;
    } else {
      var n := |more| - 1;
      LastOfRun(max, events, more);
      CancelledInQueueIsNeverHandedOut(max, w, events, more[..n], id);
      RunKeepsInv(max, events + more[..n]);
      StepKeepsAway(After(max, events + more[..n]), more[n], id);
    }
  }

  /** Cancelling a job that is still in the queue puts it out of every worker's reach. */
  lemma CancelFromQueueTakesAway(w: World, id: JobId)
    requires SInv(w) && Live(w.core.queue, id)
    ensures Away(Step(w, Cancel(id)), id)
  {
    assert Placed(w, id);
  }

  /** The job is SCHEDULED, and neither in the queue nor with a worker. */
  ghost predicate Lost(w: World, id: JobId) {
    && id in w.core.jobs && w.core.jobs[id].state == Scheduled
    && !Live(w.core.queue, id) && w.handed[id] + w.executing[id] == 0
  }

  /** The event is a failure of the job that is to be retried while the queue is full. */
  ghost predicate RetryMeetsFull(w: World, e: Event, id: JobId) {
    && e.Fail? && e.id == id && id in w.core.jobs
    && w.core.jobs[id].state == Running && Retries(w.core.jobs[id], e.retryable)
    && Full(w.maxSize, w.core.queue)
  }

  lemma StepLosesIff(w: World, e: Event, id: JobId)
    requires SInv(w) && WellFormed(w, e)
    ensures Lost(Step(w, e), id) <==> (Lost(w, id) && e != Cancel(id)) || RetryMeetsFull(w, e, id)
    ensures Lost(w, id) && e == Cancel(id) ==> Away(Step(w, e), id)
  {
    if e.GetNext? {
      PopLosesNothing(w, e.now, id);
    } else if e.id != id {
      StepLeavesOthers(w, e, id);
      StepLeavesOtherEntries(w, e, id);
    } else if e.Fail? {
      FailLosesIff(w, e, id);
    } else {
      WorkLosesIff(w, e, id);
    }
  }

  lemma PopLosesNothing(w: World, now: real, id: JobId)
    requires SInv(w)
    ensures Lost(Step(w, GetNext(now)), id) <==> Lost(w, id)
  {
    PopIndex(w.core.queue, now);
  }

  lemma WorkLosesIff(w: World, e: Event, id: JobId)
    requires SInv(w) && WellFormed(w, e) && !e.GetNext? && !e.Fail? && e.id == id
    ensures Lost(Step(w, e), id) <==> Lost(w, id) && e != Cancel(id)
    ensures Lost(w, id) && e == Cancel(id) ==> Away(Step(w, e), id)
  {
    StepKeepsInv(w, e);
    assert Placed(w, id) && Placed(Step(w, e), id);
  }

  lemma FailLosesIff(w: World, e: Event, id: JobId)
    requires SInv(w) && WellFormed(w, e) && e.Fail? && e.id == id
    ensures Lost(Step(w, e), id) <==> RetryMeetsFull(w, e, id)
    ensures !Lost(w, id)
  {
    assert Placed(w, id);
    EnqueuedIndex(w.maxSize, w.core.queue, id, Step(w, e).core.jobs[id]);
  }

  ghost predicate SomeRetryMetFull(max: Option<nat>, events: seq<Event>, id: JobId) {
    events != [] && (
      var n := |events| - 1;
      SomeRetryMetFull(max, events[..n], id) || RetryMeetsFull(After(max, events[..n]), events[n], id))
  }

  lemma {:induction false} RetryMetFullTells(max: Option<nat>, events: seq<Event>, id: JobId)
    requires IsRun(max, events)
    ensures var w := After(max, events);
            && (SomeRetryMetFull(max, events, id) ==> Lost(w, id) || Away(w, id))
            && (Lost(w, id) ==> SomeRetryMetFull(max, events, id))
  {
    if events != [] {
      var n := |events| - 1;
      var w, e := After(max, events[..n]), events[n];
      RetryMetFullTells(max, events[..n], id);
      RunKeepsInv(max, events[..n]);
      StepLosesIff(w, e, id);
      if Away(w, id) {
        StepKeepsAway(w, e, id);
      }
    }
  }

  /**
   * In every run every active job is in its place exactly when no retry met a full queue, but for jobs cancelled
   * since; with an unbounded queue, always.
   */
  lemma EveryJobInItsPlaceIff(max: Option<nat>, events: seq<Event>)
    requires IsRun(max, events)
    ensures (forall id {:trigger InItsPlace(After(max, events), id)} :: InItsPlace(After(max, events), id)) <==>
            forall id :: SomeRetryMetFull(max, events, id) ==>
              id in After(max, events).core.jobs && After(max, events).core.jobs[id].state == Cancelled
    ensures max.None? ==> forall id {:trigger InItsPlace(After(max, events), id)} :: InItsPlace(After(max, events), id)
  {
    var w := After(max, events);
    RunKeepsInv(max, events);
    forall id
      ensures InItsPlace(w, id) <==> !Lost(w, id)
      ensures Lost(w, id) <==> SomeRetryMetFull(max, events, id)
                               && !(id in w.core.jobs && w.core.jobs[id].state == Cancelled)
      ensures max.None? ==> !Lost(w, id)
    {
      assert Placed(w, id);
      RetryMetFullTells(max, events, id);
      RunKeepsMaximum(max, events);
    }
    assert forall id {:trigger InItsPlace(w, id)} :: InItsPlace(w, id) <==> !Lost(w, id);
  }

  lemma {:induction false} RunKeepsMaximum(max: Option<nat>, events: seq<Event>)
    ensures After(max, events).maxSize == max
  {
    if events != [] {
      RunKeepsMaximum(max, events[..|events| - 1]);
      StepKeepsMaximum(After(max, events[..|events| - 1]), events[|events| - 1]);
    }
  }

  lemma StepKeepsMaximum(w: World, e: Event)
    ensures Step(w, e).maxSize == w.maxSize
  {}

  /** Some continuation of the run executes the job once more. */
  ghost predicate MayExecute(max: Option<nat>, events: seq<Event>, id: JobId) {
    exists more :: IsRun(max, events + more) && Executions(max, events + more, id) > Executions(max, events, id)
  }

  ghost function Executions(max: Option<nat>, events: seq<Event>, id: JobId): nat {
    var jobs := After(max, events).core.jobs;
    if id in jobs then jobs[id].executions else 0
  }

  lemma RunContinues(max: Option<nat>, events: seq<Event>, e: Event)
    requires IsRun(max, events) && WellFormed(After(max, events), e)
    ensures IsRun(max, events + [e]) && After(max, events + [e]) == Step(After(max, events), e)
  {
    var longer := events + [e];
    assert longer[..|longer| - 1] == events && longer[|longer| - 1] == e;
  }

  ghost predicate LeadsTo(max: Option<nat>, events: seq<Event>, w: World) {
    IsRun(max, events) && After(max, events) == w
  }

  lemma LeadsOn(max: Option<nat>, events: seq<Event>, w: World, e: Event)
    requires LeadsTo(max, events, w) && WellFormed(w, e)
    ensures LeadsTo(max, events + [e], Step(w, e))
  {
    RunContinues(max, events, e);
  }

  lemma AwayNeverExecutes(max: Option<nat>, events: seq<Event>, id: JobId)
    requires IsRun(max, events) && Away(After(max, events), id)
    ensures !MayExecute(max, events, id)
  {
    forall more | IsRun(max, events + more) ensures Executions(max, events + more, id) == Executions(max, events, id) {
      CancelledInQueueIsNeverHandedOut(max, After(max, events), events, more, id);
    }
  }

  lemma HandedMayExecute(max: Option<nat>, events: seq<Event>, id: JobId)
    requires IsRun(max, events) && id in After(max, events).handed && id in After(max, events).core.jobs
    ensures MayExecute(max, events, id)
  {
    RunContinues(max, events, Begin(id));
    assert Executions(max, events + [Begin(id)], id) == Executions(max, events, id) + 1;
  }

  /**
   * Cancelling a job keeps it from being executed exactly when no worker holds it at that moment, that is, when the
   * queue contains it or a full queue has lost it.
   */
  lemma CancelPreventsExecutionIffQueued(max: Option<nat>, events: seq<Event>, id: JobId)
    requires IsRun(max, events) && id in After(max, events).core.jobs
    requires After(max, events).core.jobs[id].state == Scheduled
    ensures var w, after := After(max, events), events + [Cancel(id)];
            && IsRun(max, after)
            && id in After(max, after).core.jobs && After(max, after).core.jobs[id].state == Cancelled
            && (!MayExecute(max, after, id) <==> Live(w.core.queue, id) || Lost(w, id))
            && (max.None? ==> !Lost(w, id))
  {
    var w := After(max, events);
    RunKeepsInv(max, events);
    RunKeepsMaximum(max, events);
    RunContinues(max, events, Cancel(id));
    assert Placed(w, id);
    if id !in w.handed {
      AwayNeverExecutes(max, events + [Cancel(id)], id);
    } else {
      HandedMayExecute(max, events + [Cancel(id)], id);
    }
  }

  /** A retry is queued again exactly when the queue is not full; otherwise the job is SCHEDULED but nowhere. */
  lemma RetryIsQueuedIffNotFull(maxSize: Option<nat>, c: Core, id: JobId, retryable: bool, retryAt: real)
    requires Inv(c.queue) && Clean(c.queue)
    requires id in c.jobs && c.jobs[id].state == Running && id !in c.queue.entries
    requires Retries(c.jobs[id], retryable)
    ensures var c' := FailedJob(maxSize, c, id, retryable, retryAt);
            && c'.jobs[id].state == Scheduled
            && (Live(c'.queue, id) <==> !Full(maxSize, c.queue))
            && (id in c'.queue.entries <==> !Full(maxSize, c.queue))
  {}

  /** What `submit` answers: a known id before all else, then a full queue, then a state that cannot be SCHEDULED. */
  lemma SubmitAnswersIff(max: Option<nat>, c: Core, id: JobId, job: Job)
    requires Inv(c.queue) && Clean(c.queue) && (id !in c.jobs ==> id !in c.queue.entries)
    ensures var r, c' := SubmitOutcome(max, c, id, job), Submitted(max, c, id, job);
            var isFull := max.Some? && |LiveIds(c.queue)| >= max.value;
            && (r == AlreadyExists <==> id in c.jobs)
            && (r == QueueFull <==> id !in c.jobs && isFull)
            && (r == Accepted <==> id !in c.jobs && !isFull && job.state in {Pending, Retrying})
            && (r in {AlreadyExists, QueueFull} ==> c' == c)
            && (r == Accepted ==>
                  c'.jobs == c.jobs[id := job.(state := Scheduled)] && Live(c'.queue, id)
                  && c'.queue.entries[id].priority == job.priority)
  {
    LengthCounts(c.queue, 0.0);
  }

  /** `submit` queues a new job exactly when it was PENDING or RETRYING; any other is stranded in the store. */
  lemma SubmitQueuesIffSchedulable(maxSize: Option<nat>, c: Core, id: JobId, job: Job)
    requires id !in c.jobs && id !in c.queue.entries && !Full(maxSize, c.queue)
    ensures var c' := Submitted(maxSize, c, id, job);
            && id in c'.jobs
            && (Live(c'.queue, id) <==> job.state == Pending || job.state == Retrying)
            && (Live(c'.queue, id) <==> c'.jobs[id].state == Scheduled && job.state != Scheduled)
  {}

  ghost predicate EndsLost(max: Option<nat>, events: seq<Event>, id: JobId) {
    IsRun(max, events) && Lost(After(max, events), id) && SomeRetryMetFull(max, events, id)
  }

  /** With a maximum of one: a job is retried while another one waits in the queue, and is lost. */
  lemma RetryGetsLost(a: JobId, jobA: Job, b: JobId, jobB: Job, now: real, retryAt: real)
    requires a != b && Fresh(jobA) && Fresh(jobB) && jobA.policy.maxRetries > 0 && EntryTime(jobA) <= now
    ensures var events := [Submit(a, jobA), GetNext(now), Begin(a), Submit(b, jobB), Fail(a, true, retryAt)];
            EndsLost(Some(1), events, a)
  {
    var events := [Submit(a, jobA), GetNext(now), Begin(a)];
    AppendTwo(events, Submit(b, jobB), Fail(a, true, retryAt));
    BeginsAlone(Some(1), a, jobA, now);
    FailsWhileFull(Some(1), events, After(Some(1), events), a, b, jobB, retryAt);
  }

  lemma AppendTwo<T>(s: seq<T>, x: T, y: T)
    requires |s| == 3
    ensures s + [x] + [y] == [s[0], s[1], s[2], x, y]
  {}

  lemma BeginsAlone(max: Option<nat>, id: JobId, job: Job, now: real)
    requires max != Some(0) && Fresh(job) && EntryTime(job) <= now
    ensures var events := [Submit(id, job), GetNext(now), Begin(id)];
            var w := After(max, events);
            && LeadsTo(max, events, w) && w.maxSize == max
            && w.core.queue.entries == map[] && w.core.queue.removed == {} && id in w.executing
            && w.core.jobs == map[id := job.(state := Running, executions := 1)]
  {
    var events := [Submit(id, job), GetNext(now)];
    var w := After(max, events);
    HandedAlone(max, id, job, now);
    LeadsOn(max, events, w, Begin(id));
    assert events + [Begin(id)] == [Submit(id, job), GetNext(now), Begin(id)];
  }

  lemma HandedAlone(max: Option<nat>, id: JobId, job: Job, now: real)
    requires max != Some(0) && Fresh(job) && EntryTime(job) <= now
    ensures var events := [Submit(id, job), GetNext(now)];
            var w := After(max, events);
            && LeadsTo(max, events, w) && w.maxSize == max && w.handed == multiset{id} && w.executing == multiset{}
            && w.core.queue.entries == map[] && w.core.queue.removed == {}
            && w.core.jobs == map[id := job.(state := Scheduled)] && w.core.stats.retried == 0
  {
    var w := Step(Initial(max), Submit(id, job));
    HandOut(max, w, id, job, now);
    assert [] + [Submit(id, job)] == [Submit(id, job)];
    LeadsOn(max, [], Initial(max), Submit(id, job));
    LeadsOn(max, [Submit(id, job)], w, GetNext(now));
    assert [Submit(id, job)] + [GetNext(now)] == [Submit(id, job), GetNext(now)];
  }

  lemma FailsWhileFull(max: Option<nat>, events: seq<Event>, w: World, a: JobId, b: JobId, job: Job, retryAt: real)
    requires LeadsTo(max, events, w) && w.maxSize == max == Some(1)
    requires w.core.queue.entries == map[] && w.core.queue.removed == {} && a in w.executing
    requires a != b && a in w.core.jobs && b !in w.core.jobs && Fresh(job)
    requires w.core.jobs[a].state == Running && Retries(w.core.jobs[a], true)
    ensures var after := events + [Submit(b, job)] + [Fail(a, true, retryAt)];
            EndsLost(max, after, a)
  {
    FillsQueue(w, a, b, job);
    LeadsOn(max, events, w, Submit(b, job));
    FailureLoses(max, events + [Submit(b, job)], Step(w, Submit(b, job)), a, retryAt);
  }

  lemma FailureLoses(max: Option<nat>, events: seq<Event>, w: World, id: JobId, retryAt: real)
    requires LeadsTo(max, events, w) && id in w.executing && Full(max, w.core.queue) && w.maxSize == max
    requires id in w.core.jobs && w.core.jobs[id].state == Running && Retries(w.core.jobs[id], true)
    ensures var after := events + [Fail(id, true, retryAt)];
            EndsLost(max, after, id)
  {
    LeadsOn(max, events, w, Fail(id, true, retryAt));
    RunKeepsInv(max, events);
    StepLosesIff(w, Fail(id, true, retryAt), id);
    RetryMetFullTells(max, events + [Fail(id, true, retryAt)], id);
  }

  lemma FillsQueue(w: World, a: JobId, b: JobId, job: Job)
    requires w.maxSize == Some(1) && w.core.queue.entries == map[] && w.core.queue.removed == {}
    requires a != b && a in w.core.jobs && b !in w.core.jobs && Fresh(job)
    ensures var w' := Step(w, Submit(b, job));
            && Full(w'.maxSize, w'.core.queue) && w'.executing == w.executing
            && a in w'.core.jobs && w'.core.jobs[a] == w.core.jobs[a]
  {
    var q := Step(w, Submit(b, job)).core.queue;
    assert q.entries.Keys == {b} && q.removed == {};
  }

  // ---- when jobs are handed out

  /** The queue's entry carries the job's current priority and time. */
  ghost predicate EntryTells(w: World, id: JobId) {
    Live(w.core.queue, id) ==>
      && id in w.core.jobs
      && w.core.queue.entries[id].priority == w.core.jobs[id].priority
      && w.core.queue.entries[id].scheduledTime == EntryTime(w.core.jobs[id])
  }

  lemma StepKeepsEntryTelling(w: World, e: Event, id: JobId)
    requires SInv(w) && WellFormed(w, e) && EntryTells(w, id)
    ensures EntryTells(Step(w, e), id)
  {
    assert Placed(w, id);
    if e.GetNext? {
      PopIndex(w.core.queue, e.now);
      ScanForgets(w.core.queue, e.now);
    } else if e.id != id {
      StepLeavesOthers(w, e, id);
      StepLeavesOtherEntries(w, e, id);
    }
  }

  lemma {:induction false} RunKeepsEntryTelling(max: Option<nat>, events: seq<Event>, id: JobId)
    requires IsRun(max, events)
    ensures EntryTells(After(max, events), id)
  {
    if events != [] {
      var before := events[..|events| - 1];
      RunKeepsEntryTelling(max, before, id);
      RunKeepsInv(max, before);
      StepKeepsEntryTelling(After(max, before), events[|events| - 1], id);
    }
  }

  /** Due by its own time, which is that of its creation as long as none is set. */
  predicate DueBy(job: Job, now: real) {
    match job.scheduledAt
    case Some(at) => at <= now
    case None => job.createdAt <= now
  }

  ghost predicate Waiting(w: World, id: JobId, now: real) {
    Live(w.core.queue, id) && id in w.core.jobs && DueBy(w.core.jobs[id], now)
  }

  /** When the job last came into the queue: the number of the event that put it there, or -1. */
  ghost function QueuedAt(max: Option<nat>, events: seq<Event>, id: JobId): int {
    if events == [] then -1
    else
      var n := |events| - 1;
      if !Live(After(max, events[..n]).core.queue, id) && Live(After(max, events).core.queue, id) then n
      else QueuedAt(max, events[..n], id)
  }

  lemma {:induction false} QueuedBefore(max: Option<nat>, events: seq<Event>, id: JobId)
    ensures QueuedAt(max, events, id) < |events|
  {
    if events != [] {
      QueuedBefore(max, events[..|events| - 1], id);
    }
  }

  /** A step leaves the entries of queued jobs alone, and numbers a new one last. */
  lemma StepNumbersLast(w: World, e: Event, id: JobId)
    requires SInv(w) && WellFormed(w, e) && Live(Step(w, e).core.queue, id)
    ensures var q, q' := w.core.queue, Step(w, e).core.queue;
            if Live(q, id) then q'.entries[id] == q.entries[id]
            else q'.entries[id].insertionOrder == q.counter && (e.Submit? || e.Fail?) && e.id == id
  {
    assert Placed(w, id);
    if e.GetNext? {
      PopIndex(w.core.queue, e.now);
      ScanForgets(w.core.queue, e.now);
    } else if e.id != id {
      StepLeavesOtherEntries(w, e, id);
    } else {
      OwnStepNumbersLast(w, e);
    }
  }

  lemma OwnStepNumbersLast(w: World, e: Event)
    requires SInv(w) && WellFormed(w, e) && !e.GetNext? && Live(Step(w, e).core.queue, e.id)
    ensures var q, q' := w.core.queue, Step(w, e).core.queue;
            if Live(q, e.id) then q'.entries[e.id] == q.entries[e.id]
            else q'.entries[e.id].insertionOrder == q.counter && (e.Submit? || e.Fail?)
  {
    assert Placed(w, e.id);
  }

  /** Of two queued jobs the one that came into the queue earlier has the smaller number. */
  ghost predicate NumberedByQueueing(max: Option<nat>, events: seq<Event>, a: JobId, b: JobId) {
    var q := After(max, events).core.queue;
    Live(q, a) && Live(q, b) ==>
      (q.entries[a].insertionOrder < q.entries[b].insertionOrder <==>
       QueuedAt(max, events, a) < QueuedAt(max, events, b))
  }

  lemma LiveNumbersBelow(q: QueueState, id: JobId)
    requires Inv(q) && Live(q, id)
    ensures q.entries[id].insertionOrder < q.counter
  {
    assert q.entries[id] in q.items;
  }

  lemma {:induction false} RunNumbersByQueueing(max: Option<nat>, events: seq<Event>, a: JobId, b: JobId)
    requires IsRun(max, events)
    ensures NumberedByQueueing(max, events, a, b)
  {
    if events != [] {
      var n := |events| - 1;
      RunNumbersByQueueing(max, events[..n], a, b);
      RunKeepsInv(max, events[..n]);
      QueuedBefore(max, events[..n], a);
      QueuedBefore(max, events[..n], b);
      StepNumbers(After(max, events[..n]), events[n], a, b);
    }
  }

  lemma StepNumbers(w: World, e: Event, a: JobId, b: JobId)
    requires SInv(w) && WellFormed(w, e)
    ensures var q, q' := w.core.queue, Step(w, e).core.queue;
            Live(q', a) && Live(q', b) && a != b ==>
              && (Live(q, a) ==> q'.entries[a] == q.entries[a])
              && (Live(q, b) ==> q'.entries[b] == q.entries[b])
              && (Live(q, a) || Live(q, b))
              && (!Live(q, a) ==> q'.entries[b].insertionOrder < q'.entries[a].insertionOrder)
              && (!Live(q, b) ==> q'.entries[a].insertionOrder < q'.entries[b].insertionOrder)
  {
    var q, q' := w.core.queue, Step(w, e).core.queue;
    if Live(q', a) && Live(q', b) && a != b {
      StepNumbersLast(w, e, a);
      StepNumbersLast(w, e, b);
      if Live(q, a) {
        LiveNumbersBelow(q, a);
      }
      if Live(q, b) {
        LiveNumbersBelow(q, b);
      }
    }
  }

  /** `a` is served before `b`: by priority, then by time, then because it came into the queue earlier. */
  ghost predicate ServedFirst(max: Option<nat>, events: seq<Event>, a: JobId, b: JobId) {
    var jobs := After(max, events).core.jobs;
    && a in jobs && b in jobs
    && (|| jobs[a].priority < jobs[b].priority
        || (jobs[a].priority == jobs[b].priority && EntryTime(jobs[a]) < EntryTime(jobs[b]))
        || (jobs[a].priority == jobs[b].priority && EntryTime(jobs[a]) == EntryTime(jobs[b])
            && QueuedAt(max, events, a) < QueuedAt(max, events, b)))
  }

  lemma ServedInOrder(max: Option<nat>, events: seq<Event>, i: nat, j: nat)
    requires IsRun(max, events) && i < j < |Iteration(After(max, events).core.queue)|
    ensures var list := Iteration(After(max, events).core.queue);
            ServedFirst(max, events, list[i].jobId, list[j].jobId)
  {
    var q := After(max, events).core.queue;
    var list := Iteration(q);
    RunKeepsInv(max, events);
    IterationIsSortedIndex(q);
    assert list[i] in list && list[j] in list && Less(list[i], list[j]);
    RunKeepsEntryTelling(max, events, list[i].jobId);
    RunKeepsEntryTelling(max, events, list[j].jobId);
    RunNumbersByQueueing(max, events, list[i].jobId, list[j].jobId);
  }

  /**
   * In every run a worker gets a job as soon as one that waits is due, and the one that is served before all others
   * that are: of equal priority and time, the one that came into the queue first.
   */
  lemma HandsOutFirstDue(max: Option<nat>, events: seq<Event>, now: real)
    requires IsRun(max, events)
    ensures var w := After(max, events); var ready := Next(w.core, now).ready;
            && (ready.Some? <==> exists id :: Waiting(w, id, now))
            && (ready.Some? ==>
                  var got := ready.value.jobId;
                  && Waiting(w, got, now)
                  && forall id :: Waiting(w, id, now) && id != got ==> ServedFirst(max, events, got, id))
  {
    var w, list, k := After(max, events), Iteration(After(max, events).core.queue), 0;
    RunKeepsInv(max, events);
    ScanTakesFirstDue(w.core.queue, now);
    k := FirstDue(list, now);
    if k < |list| {
      assert list[k] in list;
      ListedIsWaiting(max, events, list[k], now);
    }
    forall id | Waiting(w, id, now)
      ensures k < |list| && (id != list[k].jobId ==> ServedFirst(max, events, list[k].jobId, id))
    {
      WaitingIsListed(max, events, id, now);
      var i :| 0 <= i < |list| && list[i] == w.core.queue.entries[id];
      assert k <= i;
      if k < i {
        ServedInOrder(max, events, k, i);
      }
    }
  }

  /** The listed entries that are due are those of the waiting jobs. */
  lemma ListedIsWaiting(max: Option<nat>, events: seq<Event>, e: QueueEntry, now: real)
    requires IsRun(max, events) && e in Iteration(After(max, events).core.queue)
    ensures Waiting(After(max, events), e.jobId, now) <==> e.scheduledTime <= now
  {
    RunKeepsInv(max, events);
    IterationIsCurrent(After(max, events).core.queue, e);
    RunKeepsEntryTelling(max, events, e.jobId);
  }

  lemma WaitingIsListed(max: Option<nat>, events: seq<Event>, id: JobId, now: real)
    requires IsRun(max, events) && Waiting(After(max, events), id, now)
    ensures var q := After(max, events).core.queue; var e := q.entries[id];
            e in Iteration(q) && e.jobId == id && e.scheduledTime <= now
  {
    RunKeepsInv(max, events);
    IterationIsCurrent(After(max, events).core.queue, After(max, events).core.queue.entries[id]);
    RunKeepsEntryTelling(max, events, id);
  }

  lemma StepKeepsTime(w: World, e: Event, id: JobId)
    requires WellFormed(w, e) && id in w.core.jobs && !(e.Fail? && e.id == id)
    ensures id in Step(w, e).core.jobs && Step(w, e).core.jobs[id].scheduledAt == w.core.jobs[id].scheduledAt
  {
    if !e.GetNext? && e.id != id {
      StepLeavesOthers(w, e, id);
    }
  }

  lemma {:induction false} TimeStays(max: Option<nat>, events: seq<Event>, more: seq<Event>, id: JobId)
    requires IsRun(max, events + more) && id in After(max, events).core.jobs
    requires forall e :: e in more && e.Fail? ==> e.id != id
    ensures id in After(max, events + more).core.jobs
    ensures After(max, events + more).core.jobs[id].scheduledAt == After(max, events).core.jobs[id].scheduledAt
    decreases |more|
  {
    if more == [] {
      assert events + more == events;
    } else {
      var n := |more| - 1;
      LastOfRun(max, events, more);
      assert more[n] in more;
      TimeStays(max, events, more[..n], id);
      StepKeepsTime(After(max, events + more[..n]), more[n], id);
    }
  }

  /** After a retry was granted the job is not handed out before its time, whatever happens until it fails again. */
  lemma RetryIsNotEarly(max: Option<nat>, events: seq<Event>, e: Event, more: seq<Event>, now: real)
    requires e.Fail? && IsRun(max, events + [e]) && IsRun(max, events + [e] + more)
    requires var jobs := After(max, events).core.jobs; e.id in jobs && Retries(jobs[e.id], e.retryable)
    requires forall later :: later in more && later.Fail? ==> later.id != e.id
    ensures var ready := Next(After(max, events + [e] + more).core, now).ready;
            ready.Some? && ready.value.jobId == e.id ==> e.retryAt <= now
  {
    var after := events + [e];
    assert after[..|events|] == events && after[|events|] == e;
    TimeStays(max, after, more, e.id);
    HandsOutFirstDue(max, after + more, now);
  }

  /** What the failure of a RUNNING job leads to: a retry as long as the policy and the error allow one. */
  lemma FailureRetriesIff(w: World, e: Event)
    requires SInv(w) && WellFormed(w, e) && e.Fail? && w.core.jobs[e.id].state == Running
    ensures var job, w' := w.core.jobs[e.id], Step(w, e); var next := w'.core.jobs[e.id];
            && (e.retryable && job.attempt < job.policy.maxRetries ==>
                  && next == job.(state := Scheduled, attempt := job.attempt + 1, scheduledAt := Some(e.retryAt))
                  && (Live(w'.core.queue, e.id) <==> !Full(w.maxSize, w.core.queue)))
            && (!(e.retryable && job.attempt < job.policy.maxRetries) ==>
                  next == job.(state := Failed) && !Live(w'.core.queue, e.id))
  {
    assert Placed(w, e.id);
    FailLosesIff(w, e, e.id);
  }

  /** What a job is submitted with and no step changes. */
  ghost predicate SameTerms(a: Job, b: Job) {
    a.priority == b.priority && a.policy == b.policy && a.createdAt == b.createdAt
  }

  lemma StepKeepsTerms(w: World, e: Event, id: JobId)
    requires WellFormed(w, e) && id in w.core.jobs
    ensures id in Step(w, e).core.jobs && SameTerms(Step(w, e).core.jobs[id], w.core.jobs[id])
  {
    if !e.GetNext? && e.id != id {
      StepLeavesOthers(w, e, id);
    }
  }

  /** A job keeps the priority and the policy it was submitted with, whatever happens. */
  lemma {:induction false} TermsStay(max: Option<nat>, events: seq<Event>, more: seq<Event>, id: JobId)
    requires IsRun(max, events + more) && id in After(max, events).core.jobs
    ensures id in After(max, events + more).core.jobs
    ensures SameTerms(After(max, events + more).core.jobs[id], After(max, events).core.jobs[id])
    decreases |more|
  {
    if more == [] {
      assert events + more == events;
    } else {
      var n := |more| - 1;
      LastOfRun(max, events, more);
      TermsStay(max, events, more[..n], id);
      StepKeepsTerms(After(max, events + more[..n]), more[n], id);
    }
  }

  /** The event takes the job out of the queue: it is handed out or cancelled. */
  ghost predicate TakesOut(w: World, e: Event, id: JobId) {
    e == Cancel(id) || (e.GetNext? && Next(w.core, e.now).ready.Some? && Next(w.core, e.now).ready.value.jobId == id)
  }

  /** None of the further events takes the job out of the queue. */
  ghost predicate NothingTakesOut(max: Option<nat>, events: seq<Event>, more: seq<Event>, id: JobId) {
    forall i {:trigger more[i]} ::
      0 <= i < |more| ==> !TakesOut(After(max, events + more[..i]), more[i], id)
  }

  lemma StaysQueued(w: World, e: Event, id: JobId)
    requires SInv(w) && WellFormed(w, e) && Live(w.core.queue, id) && !TakesOut(w, e, id)
    ensures Live(Step(w, e).core.queue, id)
    ensures id in w.core.jobs && !(e.Fail? && e.id == id)
  {
    assert Placed(w, id);
    if e.GetNext? {
      PopIndex(w.core.queue, e.now);
    } else if e.id != id {
      StepLeavesOtherEntries(w, e, id);
    }
  }

  lemma TakesOutBefore(max: Option<nat>, events: seq<Event>, more: seq<Event>, id: JobId)
    requires more != [] && NothingTakesOut(max, events, more, id)
    ensures NothingTakesOut(max, events, more[..|more| - 1], id)
    ensures !TakesOut(After(max, events + more[..|more| - 1]), more[|more| - 1], id)
  {
    var before := more[..|more| - 1];
    forall i {:trigger before[i]} | 0 <= i < |before|
      ensures !TakesOut(After(max, events + before[..i]), before[i], id)
    {
      assert before[..i] == more[..i] && before[i] == more[i];
    }
  }

  /** A queued job stays in the queue, and keeps its time, until something takes it out. */
  lemma {:induction false} QueuedUntilTaken(max: Option<nat>, events: seq<Event>, more: seq<Event>, id: JobId)
    requires IsRun(max, events + more) && id in After(max, events).core.jobs
    requires Live(After(max, events).core.queue, id) && NothingTakesOut(max, events, more, id)
    ensures var w, w' := After(max, events), After(max, events + more);
            && Live(w'.core.queue, id) && id in w'.core.jobs
            && w'.core.jobs[id].scheduledAt == w.core.jobs[id].scheduledAt
    decreases |more|
  {
    if more == [] {
      assert events + more == events;
    } else {
      var n := |more| - 1;
      LastOfRun(max, events, more);
      TakesOutBefore(max, events, more, id);
      QueuedUntilTaken(max, events, more[..n], id);
      RunKeepsInv(max, events + more[..n]);
      StaysQueued(After(max, events + more[..n]), more[n], id);
      StepKeepsTime(After(max, events + more[..n]), more[n], id);
    }
  }

  /** The failure is to be retried and finds room in the queue. */
  ghost predicate GrantsRetry(w: World, e: Event) {
    && WellFormed(w, e) && e.Fail? && w.core.jobs[e.id].state == Running
    && e.retryable && w.core.jobs[e.id].attempt < w.core.jobs[e.id].policy.maxRetries
    && !Full(w.maxSize, w.core.queue)
  }

  /**
   * A retried job that did not meet a full queue is in the queue until it is handed out or cancelled, due exactly from
   * its retry time on, and with the priority it had.
   */
  lemma RetryIsDueFrom(max: Option<nat>, events: seq<Event>, e: Event, more: seq<Event>, now: real)
    requires IsRun(max, events) && GrantsRetry(After(max, events), e)
    requires IsRun(max, events + [e] + more) && NothingTakesOut(max, events + [e], more, e.id)
    ensures var w, w' := After(max, events), After(max, events + [e] + more);
            && e.id in w'.core.jobs && w'.core.jobs[e.id].priority == w.core.jobs[e.id].priority
            && (Waiting(w', e.id, now) <==> e.retryAt <= now)
  {
    RunKeepsInv(max, events);
    RunContinues(max, events, e);
    FailureRetriesIff(After(max, events), e);
    StepKeepsTerms(After(max, events), e, e.id);
    QueuedUntilTaken(max, events + [e], more, e.id);
    TermsStay(max, events + [e], more, e.id);
  }

  // ---- conservation

  ghost function InState(jobs: map<JobId, Job>, state: JobState): set<JobId> {
    set id | id in jobs && jobs[id].state == state
  }

  ghost function Sum(order: seq<JobId>, f: JobId -> int): int {
    if order == [] then 0 else f(order[0]) + Sum(order[1..], f)
  }

  lemma {:induction false} SumSame(order: seq<JobId>, f: JobId -> int, g: JobId -> int)
    requires forall id :: id in order ==> f(id) == g(id)
    ensures Sum(order, f) == Sum(order, g)
  {
    if order != [] {
      assert order[0] in order;
      SumSame(order[1..], f, g);
    }
  }

  lemma {:induction false} SumChangesAt(order: seq<JobId>, f: JobId -> int, g: JobId -> int, x: JobId)
    requires Distinct(order) && x in order
    requires forall id :: id in order && id != x ==> f(id) == g(id)
    ensures Sum(order, g) - Sum(order, f) == g(x) - f(x)
  {
    if order[0] == x {
      forall id | id in order[1..] ensures id != x {
        var i :| 0 <= i < |order[1..]| && order[1..][i] == id;
        assert order[i + 1] != order[0];
      }
      SumSame(order[1..], f, g);
    } else {
      assert order[0] in order;
      var tail := order[1..];
      assert forall i, j :: 0 <= i < j < |tail| ==> tail[i] == order[i + 1] && tail[j] == order[j + 1];
      SumChangesAt(order[1..], f, g, x);
    }
  }

  lemma {:induction false} SumAppend(order: seq<JobId>, f: JobId -> int, x: JobId)
    ensures Sum(order + [x], f) == Sum(order, f) + f(x)
  {
    if order == [] {
      assert order + [x] == [x];
    } else {
      assert (order + [x])[1..] == order[1..] + [x];
      SumAppend(order[1..], f, x);
    }
  }

  ghost function AttemptsOf(jobs: map<JobId, Job>): JobId -> int {
    id => if id in jobs then jobs[id].attempt else 0
  }

  ghost predicate OrderListsJobs(c: Core) {
    && Distinct(c.order)
    && |c.order| == c.stats.submitted
    && (forall id :: id in c.order <==> id in c.jobs)
  }

  ghost predicate Accounted(w: World) {
    var c := w.core;
    && OrderListsJobs(c)
    && c.stats.completed == |InState(c.jobs, Completed)|
    && c.stats.failed == |InState(c.jobs, Failed)|
    && c.stats.retried + w.uncountedRetries == Sum(c.order, AttemptsOf(c.jobs))
  }

  /** How the state sets change when one job is stored anew. */
  lemma InStateChanges(jobs: map<JobId, Job>, id: JobId, job: Job, state: JobState)
    ensures var before, after := InState(jobs, state), InState(jobs[id := job], state);
            |after| == |before| + (if job.state == state && id !in before then 1 else 0)
                       - (if job.state != state && id in before then 1 else 0)
  {
    var before, after := InState(jobs, state), InState(jobs[id := job], state);
    if job.state == state {
      assert after == before + {id};
    } else {
      assert after == before - {id};
    }
  }

  lemma NewJobAccounted(c: Core, id: JobId, job: Job)
    requires OrderListsJobs(c) && id !in c.jobs
    ensures Distinct(c.order + [id])
    ensures Sum(c.order + [id], AttemptsOf(c.jobs[id := job])) == Sum(c.order, AttemptsOf(c.jobs)) + job.attempt
  {
    SumAppend(c.order, AttemptsOf(c.jobs[id := job]), id);
    SumSame(c.order, AttemptsOf(c.jobs), AttemptsOf(c.jobs[id := job]));
  }

  lemma OldJobAccounted(c: Core, id: JobId, job: Job)
    requires OrderListsJobs(c) && id in c.jobs
    ensures Sum(c.order, AttemptsOf(c.jobs[id := job])) ==
            Sum(c.order, AttemptsOf(c.jobs)) + job.attempt - c.jobs[id].attempt
  {
    SumChangesAt(c.order, AttemptsOf(c.jobs), AttemptsOf(c.jobs[id := job]), id);
  }

  /** The change of one stored job, and of the counters with it. */
  ghost predicate Recorded(w: World, w': World, id: JobId) {
    var c, c' := w.core, w'.core;
    && id in c.jobs && id in c'.jobs
    && c'.order == c.order && c'.jobs == c.jobs[id := c'.jobs[id]]
    && (c.jobs[id].state in {Completed, Failed} ==> c'.jobs[id].state == c.jobs[id].state)
    && c'.stats.submitted == c.stats.submitted
    && c'.stats.completed == c.stats.completed + (if c'.jobs[id].state == Completed != c.jobs[id].state then 1 else 0)
    && c'.stats.failed == c.stats.failed + (if c'.jobs[id].state == Failed != c.jobs[id].state then 1 else 0)
    && c'.stats.retried + w'.uncountedRetries - c.stats.retried - w.uncountedRetries
       == c'.jobs[id].attempt - c.jobs[id].attempt
  }

  lemma RecordedAccounts(w: World, w': World, id: JobId)
    requires Accounted(w) && Recorded(w, w', id)
    ensures Accounted(w')
  {
    var job := w'.core.jobs[id];
    InStateChanges(w.core.jobs, id, job, Completed);
    InStateChanges(w.core.jobs, id, job, Failed);
    OldJobAccounted(w.core, id, job);
  }

  lemma WorkRecords(w: World, e: Event)
    requires SInv(w) && WellFormed(w, e) && (e.Begin? || e.Succeed? || e.Cancel?)
    requires e.id in w.core.jobs
    ensures Recorded(w, Step(w, e), e.id)
  {
    assert Placed(w, e.id);
    assert w.core.jobs[e.id := w.core.jobs[e.id]] == w.core.jobs;
  }

  lemma FailRecords(w: World, e: Event)
    requires SInv(w) && WellFormed(w, e) && e.Fail?
    ensures Recorded(w, Step(w, e), e.id)
  {
    assert Placed(w, e.id);
    assert w.core.jobs[e.id := w.core.jobs[e.id]] == w.core.jobs;
  }

  lemma SubmitAccounts(w: World, id: JobId, job: Job)
    requires Accounted(w) && Fresh(job)
    ensures Accounted(Step(w, Submit(id, job)))
  {
    if SubmitOutcome(w.maxSize, w.core, id, job) == Accepted {
      var stored := job.(state := Scheduled);
      InStateChanges(w.core.jobs, id, stored, Completed);
      InStateChanges(w.core.jobs, id, stored, Failed);
      NewJobAccounted(w.core, id, stored);
    }
  }

  lemma StepAccounts(w: World, e: Event)
    requires SInv(w) && WellFormed(w, e) && Accounted(w)
    ensures Accounted(Step(w, e))
  {
    if e.Submit? {
      SubmitAccounts(w, e.id, e.job);
    } else if e.Fail? {
      FailRecords(w, e);
      RecordedAccounts(w, Step(w, e), e.id);
    } else if !e.GetNext? && e.id in w.core.jobs {
      WorkRecords(w, e);
      RecordedAccounts(w, Step(w, e), e.id);
    }
  }

  /** The counters add up: every submitted job is completed, failed, cancelled or active, and attempts are retries. */
  lemma {:induction false} RunAccounts(max: Option<nat>, events: seq<Event>)
    requires IsRun(max, events)
    ensures Accounted(After(max, events))
  {
    if events == [] {
      assert InState(map[], Completed) == {} && InState(map[], Failed) == {};
    } else {
      var before := events[..|events| - 1];
      RunAccounts(max, before);
      RunKeepsInv(max, before);
      StepAccounts(After(max, before), events[|events| - 1]);
    }
  }

  ghost function ActiveIds(jobs: map<JobId, Job>): set<JobId> {
    set id | id in jobs && Active(jobs[id].state)
  }

  /** Submitted jobs are completed, failed, cancelled or active; attempts are the retries counted and those in vain. */
  lemma CountersConserve(max: Option<nat>, events: seq<Event>)
    requires IsRun(max, events)
    ensures var w := After(max, events); var c := w.core;
            && c.stats.submitted ==
               c.stats.completed + c.stats.failed + |InState(c.jobs, Cancelled)| + |ActiveIds(c.jobs)|
            && c.stats.retried + w.uncountedRetries == Sum(c.order, AttemptsOf(c.jobs))
  {
    RunAccounts(max, events);
    var c := After(max, events).core;
    Partition(c.jobs);
    DistinctCardinality(c.order);
    assert Elements(c.order) == c.jobs.Keys;
  }

  /** At step `i` a failure with retries left is reported for a job that has been cancelled. */
  ghost predicate FailsWhileCancelled(max: Option<nat>, events: seq<Event>, i: nat)
    requires i < |events|
  {
    var jobs, e := After(max, events[..i]).core.jobs, events[i];
    e.Fail? && e.id in jobs && jobs[e.id].state == Cancelled && Retries(jobs[e.id], e.retryable)
  }

  ghost predicate NoneFailsWhileCancelled(max: Option<nat>, events: seq<Event>) {
    forall i {:trigger FailsWhileCancelled(max, events, i)} ::
      0 <= i < |events| ==> !FailsWhileCancelled(max, events, i)
  }

  lemma LastFailsWhileCancelled(max: Option<nat>, events: seq<Event>, n: nat)
    requires |events| == n + 1
    ensures NoneFailsWhileCancelled(max, events) <==>
            NoneFailsWhileCancelled(max, events[..n]) && !FailsWhileCancelled(max, events, n)
  {
    forall i | 0 <= i < n ensures FailsWhileCancelled(max, events, i) <==> FailsWhileCancelled(max, events[..n], i) {
      EarlierFailsAlike(max, events, n, i);
    }
  }

  lemma EarlierFailsAlike(max: Option<nat>, events: seq<Event>, n: nat, i: nat)
    requires i < n <= |events|
    ensures FailsWhileCancelled(max, events, i) <==> FailsWhileCancelled(max, events[..n], i)
  {
    assert events[..n][..i] == events[..i] && events[..n][i] == events[i];
  }

  lemma LastIsUncounted(w: World, e: Event)
    requires SInv(w) && WellFormed(w, e)
    ensures var inVain := e.Fail? && w.core.jobs[e.id].state == Cancelled && Retries(w.core.jobs[e.id], e.retryable);
            Step(w, e).uncountedRetries == w.uncountedRetries + if inVain then 1 else 0
  {
    if e.Fail? {
      assert Placed(w, e.id);
    }
  }

  lemma {:induction false} UncountedIffFailsWhileCancelled(max: Option<nat>, events: seq<Event>)
    requires IsRun(max, events)
    ensures After(max, events).uncountedRetries == 0 <==> NoneFailsWhileCancelled(max, events)
  {
    if events != [] {
      var n := |events| - 1;
      UncountedIffFailsWhileCancelled(max, events[..n]);
      RunKeepsInv(max, events[..n]);
      LastIsUncounted(After(max, events[..n]), events[n]);
      LastFailsWhileCancelled(max, events, n);
    }
  }

  /** The retried counter is the sum of the attempts exactly when no cancelled job was reported to fail like that. */
  lemma RetriedIsAttemptsIff(max: Option<nat>, events: seq<Event>)
    requires IsRun(max, events)
    ensures var c := After(max, events).core;
            c.stats.retried == Sum(c.order, AttemptsOf(c.jobs)) <==> NoneFailsWhileCancelled(max, events)
  {
    CountersConserve(max, events);
    UncountedIffFailsWhileCancelled(max, events);
  }

  /** A job handed out, then cancelled, is executed all the same, and its failure counts an attempt but no retry. */
  lemma CancelledJobRuns(max: Option<nat>, id: JobId, job: Job, now: real, retryAt: real)
    requires Fresh(job) && job.policy.maxRetries > 0 && EntryTime(job) <= now && max != Some(0)
    ensures var events := [Submit(id, job), GetNext(now), Cancel(id), Begin(id), Fail(id, true, retryAt)];
            var c := After(max, events).core;
            && IsRun(max, events) && id in c.jobs
            && c.jobs[id].state == Cancelled && c.jobs[id].executions == 1
            && c.jobs[id].attempt == 1 && c.stats.retried == 0
  {
    var events := [Submit(id, job), GetNext(now)];
    var w := After(max, events);
    HandedAlone(max, id, job, now);
    LeadsOn(max, events, w, Cancel(id));
    FailsInVain(max, events + [Cancel(id)], id, retryAt);
    AppendTwo(events + [Cancel(id)], Begin(id), Fail(id, true, retryAt));
  }

  lemma FailsInVain(max: Option<nat>, events: seq<Event>, id: JobId, retryAt: real)
    requires IsRun(max, events) && id in After(max, events).core.jobs && id in After(max, events).handed
    requires var job := After(max, events).core.jobs[id]; job.state == Cancelled && job.attempt < job.policy.maxRetries
    ensures var c, after := After(max, events).core, events + [Begin(id)] + [Fail(id, true, retryAt)];
            var d := After(max, after).core;
            && IsRun(max, after) && id in d.jobs && d.stats == c.stats
            && d.jobs[id].state == Cancelled && d.jobs[id].executions == c.jobs[id].executions + 1
            && d.jobs[id].attempt == c.jobs[id].attempt + 1
  {
    VainSteps(After(max, events), id, retryAt);
    RunContinues(max, events, Begin(id));
    RunContinues(max, events + [Begin(id)], Fail(id, true, retryAt));
  }

  lemma VainSteps(w: World, id: JobId, retryAt: real)
    requires id in w.core.jobs
    requires var job := w.core.jobs[id]; job.state == Cancelled && job.attempt < job.policy.maxRetries
    ensures var w1 := Step(w, Begin(id));
            var w2 := Step(w1, Fail(id, true, retryAt));
            var job := w.core.jobs[id];
            && id in w1.executing && id in w1.core.jobs && w2.core.stats == w.core.stats
            && w2.core.jobs == w.core.jobs[id :=
                 job.(executions := job.executions + 1, attempt := job.attempt + 1, scheduledAt := Some(retryAt))]
  {
    var w1 := Step(w, Begin(id));
    assert w1.core.jobs[id] == w.core.jobs[id].(executions := w.core.jobs[id].executions + 1);
  }

  lemma HandOut(max: Option<nat>, w: World, id: JobId, job: Job, now: real)
    requires Fresh(job) && EntryTime(job) <= now && max != Some(0) && w == Step(Initial(max), Submit(id, job))
    ensures var w' := Step(w, GetNext(now));
            && w'.handed == multiset{id} && w'.executing == multiset{}
            && w'.core.queue.entries == map[] && w'.core.queue.removed == {}
            && w'.core.jobs == map[id := job.(state := Scheduled)] && w'.core.stats.retried == 0
  {
    var q := w.core.queue;
    assert q.items == [QueueEntry(job.priority, EntryTime(job), 0, id)] && q.removed == {};
    assert Scan(q, now) == Popped(Some(q.items[0]), q.(items := q.items[1..], entries := q.entries - {id}));
  }

  lemma Partition(jobs: map<JobId, Job>)
    ensures |jobs.Keys| ==
            |InState(jobs, Completed)| + |InState(jobs, Failed)| + |InState(jobs, Cancelled)| + |ActiveIds(jobs)|
  {
    var completed, failed := InState(jobs, Completed), InState(jobs, Failed);
    var cancelled, active := InState(jobs, Cancelled), ActiveIds(jobs);
    assert jobs.Keys == completed + failed + cancelled + active;
  }

  // ---- termination

  ghost function Weight(w: World, id: JobId): int {
    if id !in w.core.jobs then 0
    else
      var job := w.core.jobs[id];
      var left := MaxRetries(job) - job.attempt;
      if job.state == Cancelled then 3 * w.handed[id] + w.executing[id]
      else if !Active(job.state) then 0
      else if w.executing[id] > 0 then 4 * left + 2
      else if w.handed[id] > 0 then 4 * left + 4
      else 4 * left + 5
  }

  ghost function WeightOf(w: World): JobId -> int {
    id => Weight(w, id)
  }

  /** The work left: what remains of the retries of every job. */
  ghost function Remaining(w: World): int {
    Sum(w.core.order, WeightOf(w))
  }

  /** Everything but a submission, a pop that hands out nothing and a cancellation that is refused. */
  ghost predicate Effective(w: World, e: Event) {
    match e
    case Submit(_, _) => false
    case GetNext(now) => Next(w.core, now).ready.Some?
    case Cancel(id) => id in w.core.jobs && Cancellable(w.core.jobs[id].state)
    case _ => true
  }

  /** The one job an effective event is about. */
  ghost function Subject(w: World, e: Event): JobId
    requires Effective(w, e)
  {
    if e.GetNext? then Next(w.core, e.now).ready.value.jobId else e.id
  }

  lemma PopLosesWeight(w: World, now: real)
    requires SInv(w) && Next(w.core, now).ready.Some?
    ensures var id := Next(w.core, now).ready.value.jobId;
            id in w.core.jobs && Weight(Step(w, GetNext(now)), id) < Weight(w, id)
  {
    PopIndex(w.core.queue, now);
    assert Placed(w, Next(w.core, now).ready.value.jobId);
  }

  lemma WorkLosesWeight(w: World, e: Event)
    requires SInv(w) && WellFormed(w, e) && Effective(w, e) && !e.GetNext?
    ensures e.id in w.core.jobs && Weight(Step(w, e), e.id) < Weight(w, e.id)
  {
    assert Placed(w, e.id);
    match e
    case Begin(_) =>
    case Succeed(_) =>
    case Fail(id, retryable, retryAt) => FailLosesWeight(w, id, retryable, retryAt);
    case Cancel(_) =>
  }

  lemma FailLosesWeight(w: World, id: JobId, retryable: bool, retryAt: real)
    requires SInv(w) && WellFormed(w, Fail(id, retryable, retryAt))
    ensures Weight(Step(w, Fail(id, retryable, retryAt)), id) < Weight(w, id)
  {
    assert Placed(w, id);
  }

  /** A step leaves every job alone but the one it is about. */
  ghost predicate SameJob(w: World, w': World, id: JobId) {
    && (id in w.core.jobs <==> id in w'.core.jobs)
    && (id in w.core.jobs ==> w'.core.jobs[id] == w.core.jobs[id])
    && w'.handed[id] == w.handed[id] && w'.executing[id] == w.executing[id]
  }

  lemma StepLeavesOthers(w: World, e: Event, other: JobId)
    requires WellFormed(w, e)
    requires !e.GetNext? ==> e.id != other
    requires e.GetNext? && Next(w.core, e.now).ready.Some? ==> Next(w.core, e.now).ready.value.jobId != other
    ensures SameJob(w, Step(w, e), other)
  {
    match e
    case Submit(id, job) => SubmitLeavesOthers(w, id, job, other);
    case GetNext(now) => PopLeavesOthers(w, now, other);
    case Begin(id) => BeginLeavesOthers(w, id, other);
    case Succeed(id) => SucceedLeavesOthers(w, id, other);
    case Fail(id, retryable, retryAt) => FailLeavesOthers(w, id, retryable, retryAt, other);
    case Cancel(id) => CancelLeavesOthers(w, id, other);
  }

  lemma PopLeavesOthers(w: World, now: real, other: JobId)
    requires Next(w.core, now).ready.Some? ==> Next(w.core, now).ready.value.jobId != other
    ensures SameJob(w, Step(w, GetNext(now)), other)
  {}

  lemma BeginLeavesOthers(w: World, id: JobId, other: JobId)
    requires id != other
    ensures SameJob(w, Step(w, Begin(id)), other)
  {}

  lemma SucceedLeavesOthers(w: World, id: JobId, other: JobId)
    requires id != other
    ensures SameJob(w, Step(w, Succeed(id)), other)
  {}

  lemma CancelLeavesOthers(w: World, id: JobId, other: JobId)
    requires id != other
    ensures SameJob(w, Step(w, Cancel(id)), other)
  {}

  /** The entry of a job, and whether it is live, are the same in both queues. */
  ghost predicate SameEntry(q: QueueState, q': QueueState, id: JobId) {
    && (Live(q', id) <==> Live(q, id))
    && (id in q.entries <==> id in q'.entries)
    && (id in q.entries ==> q'.entries[id] == q.entries[id])
  }

  lemma EnqueueLeavesOthers(maxSize: Option<nat>, q: QueueState, id: JobId, job: Job, other: JobId)
    requires id != other
    ensures SameEntry(q, Enqueued(maxSize, q, id, job), other)
  {}

  /** Nor does a step that is about another job touch this one's entry. */
  lemma StepLeavesOtherEntries(w: World, e: Event, other: JobId)
    requires !e.GetNext? && e.id != other
    ensures SameEntry(w.core.queue, Step(w, e).core.queue, other)
  {
    if e.Submit? && SubmitOutcome(w.maxSize, w.core, e.id, e.job) == Accepted {
      EnqueueLeavesOthers(w.maxSize, w.core.queue, e.id, e.job.(state := Scheduled), other);
    } else if e.Fail? && e.id in w.core.jobs {
      EnqueueLeavesOthers(w.maxSize, w.core.queue, e.id, Step(w, e).core.jobs[e.id], other);
    }
  }

  lemma SubmitLeavesOthers(w: World, id: JobId, job: Job, other: JobId)
    requires id != other
    ensures SameJob(w, Step(w, Submit(id, job)), other)
  {}

  lemma FailLeavesOthers(w: World, id: JobId, retryable: bool, retryAt: real, other: JobId)
    requires id != other
    ensures SameJob(w, Step(w, Fail(id, retryable, retryAt)), other)
  {}

  lemma SameJobSameWeight(w: World, w': World, id: JobId)
    requires SameJob(w, w', id)
    ensures Weight(w', id) == Weight(w, id)
  {}

  /** Every effective step strictly decreases the remaining work. */
  lemma StepDecreasesRemaining(w: World, e: Event)
    requires SInv(w) && WellFormed(w, e) && Accounted(w) && Effective(w, e)
    ensures Remaining(Step(w, e)) < Remaining(w)
  {
    var id, w' := Subject(w, e), Step(w, e);
    if e.GetNext? {
      PopLosesWeight(w, e.now);
    } else {
      WorkLosesWeight(w, e);
    }
    forall other | other in w.core.order && other != id ensures WeightOf(w)(other) == WeightOf(w')(other) {
      StepLeavesOthers(w, e, other);
      SameJobSameWeight(w, w', other);
    }
    StepKeepsOrder(w, e);
    SumChangesAt(w.core.order, WeightOf(w), WeightOf(w'), id);
    assert WeightOf(w')(id) < WeightOf(w)(id);
  }

  lemma StepKeepsOrder(w: World, e: Event)
    requires !e.Submit?
    ensures Step(w, e).core.order == w.core.order
  {}

  lemma OtherStepsKeepRemaining(w: World, e: Event)
    requires SInv(w) && WellFormed(w, e) && Accounted(w) && !Effective(w, e)
    ensures Remaining(Step(w, e)) == Remaining(w) + Granted(w, e)
  {
    var w' := Step(w, e);
    if e.Submit? && Accepts(w, e.id, e.job) {
      GrantedOnSubmit(w, e.id, e.job);
    } else {
      forall id | id in w.core.order ensures WeightOf(w)(id) == WeightOf(w')(id) {
        SameJobSameWeight(w, w', id);
      }
      SumSame(w.core.order, WeightOf(w), WeightOf(w'));
    }
  }

  lemma NewWeight(w: World, id: JobId, job: Job)
    requires SInv(w) && Fresh(job) && Accepts(w, id, job)
    ensures Weight(Step(w, Submit(id, job)), id) == 4 * MaxRetries(job) + 5
    ensures Step(w, Submit(id, job)).core.order == w.core.order + [id]
  {
    assert Placed(w, id);
  }

  lemma GrantedOnSubmit(w: World, id: JobId, job: Job)
    requires SInv(w) && Fresh(job) && Accounted(w) && Accepts(w, id, job)
    ensures Remaining(Step(w, Submit(id, job))) == Remaining(w) + 4 * MaxRetries(job) + 5
  {
    var w' := Step(w, Submit(id, job));
    NewWeight(w, id, job);
    forall other | other in w.core.order ensures WeightOf(w)(other) == WeightOf(w')(other) {
      StepLeavesOthers(w, Submit(id, job), other);
      SameJobSameWeight(w, w', other);
    }
    SumSame(w.core.order, WeightOf(w), WeightOf(w'));
    SumAppend(w.core.order, WeightOf(w'), id);
  }

  ghost predicate Accepts(w: World, id: JobId, job: Job) {
    SubmitOutcome(w.maxSize, w.core, id, job) == Accepted
  }

  /** What an accepted submission may cost in steps. */
  ghost function Granted(w: World, e: Event): int {
    if e.Submit? && Accepts(w, e.id, e.job) then 4 * MaxRetries(e.job) + 5 else 0
  }

  ghost function Budget(max: Option<nat>, events: seq<Event>): int {
    if events == [] then 0
    else Budget(max, events[..|events| - 1]) + Granted(After(max, events[..|events| - 1]), events[|events| - 1])
  }

  ghost function EffectiveSteps(max: Option<nat>, events: seq<Event>): nat {
    if events == [] then 0
    else
      EffectiveSteps(max, events[..|events| - 1])
      + if Effective(After(max, events[..|events| - 1]), events[|events| - 1]) then 1 else 0
  }

  lemma {:induction false} StepsWithinBudget(max: Option<nat>, events: seq<Event>)
    requires IsRun(max, events)
    ensures EffectiveSteps(max, events) + Remaining(After(max, events)) <= Budget(max, events)
  {
    if events != [] {
      var before, e := events[..|events| - 1], events[|events| - 1];
      StepsWithinBudget(max, before);
      RunKeepsInv(max, before);
      RunAccounts(max, before);
      if Effective(After(max, before), e) {
        StepDecreasesRemaining(After(max, before), e);
      } else {
        OtherStepsKeepRemaining(After(max, before), e);
      }
    }
  }

  lemma {:induction false} WeightsAreNotNegative(w: World, order: seq<JobId>)
    requires SInv(w)
    ensures Sum(order, WeightOf(w)) >= 0
  {
    if order != [] {
      assert Placed(w, order[0]);
      WeightsAreNotNegative(w, order[1..]);
    }
  }

  /** Retries terminate: the effective steps of a run are bounded by the retries granted to the submitted jobs. */
  lemma RetriesTerminate(max: Option<nat>, events: seq<Event>)
    requires IsRun(max, events)
    ensures EffectiveSteps(max, events) <= Budget(max, events)
  {
    StepsWithinBudget(max, events);
    RunKeepsInv(max, events);
    WeightsAreNotNegative(After(max, events), After(max, events).core.order);
  }

  // ---- asking for the next job, starting and stopping

  /** One step for each turn of the queue's loop. */
  ghost function Turns(q: QueueState, clock: seq<real>): seq<Event>
    decreases |clock|
  {
    if clock == [] then []
    else
      var t := PopTurn(q, clock[0]);
      [GetNext(clock[0])] + if t.outcome.GoesRound? then Turns(t.rest, clock[1..]) else []
  }

  /** The state after a call of `get_next_job` on which the queue's loop gave the result. */
  ghost function AfterAsking(w: World, r: PopResult): World {
    w.(core := w.core.(queue := r.rest),
       handed := if r.outcome.HandedOut? then w.handed + multiset{r.outcome.entry.jobId} else w.handed)
  }

  lemma OneTurn(w: World, now: real)
    ensures Step(w, GetNext(now)) == AfterAsking(w, PopTurn(w.core.queue, now))
  {}

  lemma AskedAgain(w: World, clock: seq<real>)
    requires clock != [] && PopTurn(w.core.queue, clock[0]).outcome.GoesRound?
    ensures var w1, q := Step(w, GetNext(clock[0])), w.core.queue;
            && AfterAsking(w1, PopOver(w1.core.queue, clock[1..])) == AfterAsking(w, PopOver(q, clock))
            && Turns(q, clock) == [GetNext(clock[0])] + Turns(w1.core.queue, clock[1..])
  {
    OneTurn(w, clock[0]);
  }

  lemma AskedOnce(w: World, clock: seq<real>)
    requires clock != [] && !PopTurn(w.core.queue, clock[0]).outcome.GoesRound?
    ensures Step(w, GetNext(clock[0])) == AfterAsking(w, PopOver(w.core.queue, clock))
    ensures Turns(w.core.queue, clock) == [GetNext(clock[0])]
  {
    OneTurn(w, clock[0]);
  }

  lemma Associate<T>(s: seq<T>, x: T, t: seq<T>)
    ensures s + [x] + t == s + ([x] + t)
  {}

  /** A call of `get_next_job` with a timeout of zero is a run of steps, one for each turn of the queue's loop. */
  lemma {:induction false} AskingIsRun(max: Option<nat>, events: seq<Event>, w: World, clock: seq<real>)
    requires LeadsTo(max, events, w)
    ensures LeadsTo(max, events + Turns(w.core.queue, clock), AfterAsking(w, PopOver(w.core.queue, clock)))
    decreases |clock|
  {
    if clock == [] {
      assert events + [] == events;
    } else {
      var e := GetNext(clock[0]);
      var w1 := Step(w, e);
      LeadsOn(max, events, w, e);
      if PopTurn(w.core.queue, clock[0]).outcome.GoesRound? {
        AskedAgain(w, clock);
        AskingIsRun(max, events + [e], w1, clock[1..]);
        Associate(events, e, Turns(w1.core.queue, clock[1..]));
      } else {
        AskedOnce(w, clock);
      }
    }
  }

  datatype SwitchState = SwitchState(running: bool, shutdown: bool)

  datatype Command = Start | Stop

  /** `start` and `stop`; the queue is shut down by the first stop that has an effect and stays so. */
  ghost function Switched(s: SwitchState, c: Command): SwitchState {
    match c
    case Start => s.(running := true)
    case Stop => if s.running then SwitchState(false, true) else s
  }

  ghost predicate HandsOut(s: SwitchState) {
    s.running && !s.shutdown
  }

  ghost function AfterCommands(commands: seq<Command>): SwitchState {
    if commands == [] then SwitchState(false, false)
    else Switched(AfterCommands(commands[..|commands| - 1]), commands[|commands| - 1])
  }

  ghost predicate StoppedOnce(commands: seq<Command>) {
    exists i, j :: 0 <= i < j < |commands| && commands[i] == Start && commands[j] == Stop
  }

  /** A running scheduler hands out jobs exactly when it was never stopped before: a restart does not help. */
  lemma {:induction false} RestartedHandsOutNothing(commands: seq<Command>)
    ensures var s := AfterCommands(commands);
            && (s.running <==> commands != [] && commands[|commands| - 1] == Start)
            && (s.shutdown <==> StoppedOnce(commands))
            && (HandsOut(s) <==> commands != [] && commands[|commands| - 1] == Start && !StoppedOnce(commands))
  {
    if commands != [] {
      var n := |commands| - 1;
      var before := commands[..n];
      RestartedHandsOutNothing(before);
      assert n > 0 ==> before[n - 1] == commands[n - 1];
      if StoppedOnce(before) {
        var i, j :| 0 <= i < j < n && before[i] == Start && before[j] == Stop;
        assert commands[i] == Start && commands[j] == Stop;
      }
      if StoppedOnce(commands) && !StoppedOnce(before) {
        var i, j :| 0 <= i < j < |commands| && commands[i] == Start && commands[j] == Stop;
        assert j == n && before[i] == Start;
        assert before[n - 1] == Start;
      }
    }
  }

  // ---- the scheduler object

  datatype Outcome = Ok | NotFound | Refused

  lemma StoredTwice(jobs: map<JobId, Job>, id: JobId, first: Job, second: Job)
    ensures jobs[id := first][id := second] == jobs[id := second]
  {}

  class Scheduler {
    const maxSize: Option<nat>
    const queue: ThreadSafePriorityQueue
    var jobStore: map<JobId, Job>
    var order: seq<JobId>
    var submitted: nat
    var completed: nat
    var failed: nat
    var retried: nat
    var running: bool

    ghost function State(): Core
      reads this, queue
    {
      Core(order, jobStore, queue.State(), Stats(submitted, completed, failed, retried))
    }

    ghost predicate Valid()
      reads this, queue
    {
      queue.Valid() && queue.maxSize == maxSize
    }

    /** The configuration refuses a maximum of zero. */
    constructor (max: Option<nat>)
      requires max != Some(0)
      ensures Valid() && fresh(queue) && State() == Initial(max).core && maxSize == max
    {
      maxSize := max;
      queue := new ThreadSafePriorityQueue(max);
      jobStore, order := map[], [];
      submitted, completed, failed, retried := 0, 0, 0, 0;
      running := false;
    }

    ghost function Switch(): SwitchState
      reads this, queue
    {
      SwitchState(running, queue.isShutdown)
    }

    method Start()
      requires Valid()
      modifies this`running
      ensures Valid() && State() == old(State()) && Switch() == Switched(old(Switch()), Command.Start)
    {
      if running {
        return;
      }
      running := true;
    }

    /** Shuts the queue down for good. */
    method Stop()
      requires Valid()
      modifies this`running, queue`isShutdown
      ensures Valid() && State() == old(State()) && Switch() == Switched(old(Switch()), Command.Stop)
    {
      if !running {
        return;
      }
      running := false;
      queue.Shutdown();
    }

    method Submit(id: JobId, job: Job) returns (r: SubmitResult)
      requires Valid()
      modifies this, queue
      ensures Valid() && r == SubmitOutcome(maxSize, old(State()), id, job)
      ensures State() == Submitted(maxSize, old(State()), id, job)
    {
      if id in jobStore {
        return AlreadyExists;
      }
      var length := queue.Len();
      if maxSize.Some? && length >= maxSize.value {
        return QueueFull;
      }
      jobStore := jobStore[id := job];
      order := order + [id];
      if !CanTransition(job.state, Scheduled) {
        return NotSchedulable;
      }
      var stored := job.(state := Scheduled);
      StoredTwice(old(jobStore), id, job, stored);
      Schedule(id, stored);
      assert queue.State() == Enqueued(maxSize, old(queue.State()), id, stored);
      return Accepted;
    }

    /** The end of `submit`: the job becomes SCHEDULED and is pushed, which the check of the capacity lets succeed. */
    method Schedule(id: JobId, scheduled: Job)
      requires Valid() && !Full(maxSize, queue.State())
      modifies this`jobStore, this`submitted, queue
      ensures Valid() && submitted == old(submitted) + 1
      ensures jobStore == old(jobStore)[id := scheduled]
      ensures queue.State() == Enqueued(maxSize, old(queue.State()), id, scheduled)
    {
      jobStore := jobStore[id := scheduled];
      var pushed := queue.Push(id, scheduled.priority, EntryTime(scheduled));
      assert pushed;
      submitted := submitted + 1;
    }

    /** `get_next_job` with a timeout of zero; `clock` holds the readings of the clock in the queue's loop. */
    method GetNextJob(clock: seq<real>) returns (r: PopOutcome)
      requires Valid()
      modifies queue
      ensures Valid() && Switch() == old(Switch())
      ensures !HandsOut(Switch()) ==> r == GaveUp && State() == old(State())
      ensures HandsOut(Switch()) ==>
                State() == old(State()).(queue := PopOver(old(State()).queue, clock).rest)
                && r == PopOver(old(State()).queue, clock).outcome
    {
      if !running {
        return GaveUp;
      }
      r := queue.PopNowait(clock);
    }

    /** The runner's part of `run_job` before the outcome is known. */
    method BeginRun(id: JobId) returns (r: Outcome)
      requires Valid()
      modifies this`jobStore
      ensures Valid() && State() == Begun(old(State()), id)
      ensures r == if id in old(jobStore) then Ok else NotFound
    {
      if id !in jobStore {
        return NotFound;
      }
      var job := jobStore[id];
      jobStore := jobStore[id := job.(state := StateWhileRunning(job.state), executions := job.executions + 1)];
      return Ok;
    }

    method CompleteJob(id: JobId) returns (r: Outcome)
      requires Valid()
      modifies this`jobStore, this`completed
      ensures Valid() && State() == CompletedJob(old(State()), id)
      ensures r == if id !in old(jobStore) then NotFound else if old(jobStore)[id].state == Running then Ok else Refused
    {
      if id !in jobStore {
        return NotFound;
      }
      var job := jobStore[id];
      if !CanTransition(job.state, Completed) {
        return Refused;
      }
      jobStore := jobStore[id := job.(state := Completed)];
      completed := completed + 1;
      return Ok;
    }

    /** `retryAt` is the time of the failure plus the delay the policy computes for the job's attempt. */
    method FailJob(id: JobId, retryable: bool, now: real, random: real) returns (r: Outcome, ghost retryAt: real)
      requires Valid()
      modifies this`jobStore, this`retried, this`failed, queue
      ensures Valid() && State() == FailedJob(maxSize, old(State()), id, retryable, retryAt)
      ensures id in old(jobStore) ==>
                retryAt == now + Delay(old(jobStore)[id].policy, old(jobStore)[id].attempt, random)
      ensures r == if id !in old(jobStore) then NotFound
                   else if CanTransition(old(jobStore)[id].state,
                                         if Retries(old(jobStore)[id], retryable) then Retrying else Failed) then Ok
                   else Refused
    {
      if id !in jobStore {
        return NotFound, 0.0;
      }
      var job := jobStore[id];
      var at := now + Delay(job.policy, job.attempt, random);
      retryAt := at;
      if ShouldRetry(job.policy, job.attempt, Some(retryable)) {
        var next := job.(attempt := job.attempt + 1, scheduledAt := Some(at));
        if !CanTransition(job.state, Retrying) {
          jobStore := jobStore[id := next];
          return Refused, at;
        }
        next := next.(state := Scheduled);
        jobStore := jobStore[id := next];
        var pushed := queue.Push(id, next.priority, EntryTime(next));
        retried := retried + 1;
        return Ok, at;
      }
      if !CanTransition(job.state, Failed) {
        return Refused, at;
      }
      jobStore := jobStore[id := job.(state := Failed)];
      failed := failed + 1;
      return Ok, at;
    }

    method CancelJob(id: JobId) returns (r: Outcome)
      requires Valid()
      modifies this`jobStore, queue`removed
      ensures Valid() && State() == CancelledJob(old(State()), id)
      ensures r == if id !in old(jobStore) then NotFound
                   else if Cancellable(old(jobStore)[id].state) then Ok else Refused
    {
      if id !in jobStore {
        return NotFound;
      }
      var job := jobStore[id];
      if !Cancellable(job.state) {
        return Refused;
      }
      var found := queue.Remove(id);
      jobStore := jobStore[id := job.(state := Cancelled)];
      return Ok;
    }
  }
}
