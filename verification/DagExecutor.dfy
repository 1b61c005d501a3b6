/** The DAG executor of `scheduler/dag_executor.py`: dispatch, failure, cancellation and completion of one DAG. */
module DagExecution {
  import opened Collections
  import opened Graphs

  datatype DagStatus = Running | Completed | Failed | Cancelled

  /** The bookkeeping of one execution, with the number of calls made to the two DAG callbacks. */
  datatype Exec = Exec(
    status: DagStatus,
    completed: set<JobId>,
    failed: set<JobId>,
    running: set<JobId>,
    cancelled: set<JobId>,
    completeCalls: nat,
    failedCalls: nat)

  // `rejected` stands for the scheduler: the jobs whose submission raises during the event.
  datatype Event =
    | JobComplete(job: JobId, rejected: set<JobId>)
    | JobFailed(job: JobId, rejected: set<JobId>)
    | CancelDag

  // ---- the transitions, on values

  ghost predicate Seen(s: Exec, v: JobId) {
    v in s.running || v in s.completed || v in s.failed || v in s.cancelled
  }

  ghost predicate Ready(g: Graph, s: Exec, v: JobId) {
    v in g && !Seen(s, v) && g[v] <= s.completed
  }

  ghost function Queued(s: Exec, jobs: set<JobId>, rejected: set<JobId>): Exec {
    s.(running := s.running + (jobs - rejected), failed := s.failed + jobs * rejected)
  }

  ghost function Roots(g: Graph): set<JobId> {
    set v | v in g && g[v] == {}
  }

  ghost function ReadyAmong(g: Graph, s: Exec, jobs: set<JobId>): set<JobId> {
    set v | v in jobs && Ready(g, s, v)
  }

  ghost function Started(g: Graph, rejected: set<JobId>): Exec {
    Queued(Exec(Running, {}, {}, {}, {}, 0, 0), Roots(g), rejected)
  }

  ghost function Unfinished(g: Graph, s: Exec): set<JobId> {
    g.Keys - s.completed - s.failed
  }

  ghost function Fail(g: Graph, s: Exec): Exec {
    if s.status == Failed || s.status == Cancelled then s
    else s.(status := Failed, cancelled := s.cancelled + Unfinished(g, s), failedCalls := s.failedCalls + 1)
  }

  ghost function Checked(g: Graph, s: Exec, rejected: set<JobId>): Exec {
    if s.running != {} then s
    else if
      && Count(s.completed) + Count(s.failed) + Count(s.cancelled) < Count(g.Keys)
      && ReadyAmong(g, s, g.Keys) != {}
    then
      Queued(s, ReadyAmong(g, s, g.Keys), rejected)
    else if s.failed != {} then Fail(g, s)
    else s.(status := Completed, completeCalls := s.completeCalls + 1)
  }

  ghost function Finished(s: Exec, v: JobId): Exec {
    s.(running := s.running - {v}, completed := s.completed + {v})
  }

  /** The dependents of `v` that its completion makes ready. */
  ghost function NewlyReady(g: Graph, s: Exec, v: JobId): set<JobId> {
    ReadyAmong(g, Finished(s, v), Dependents(g, v))
  }

  /** The execution once `v` has completed and its ready dependents are queued, before the completion check. */
  ghost function Dispatched(g: Graph, s: Exec, v: JobId, rejected: set<JobId>): Exec {
    Queued(Finished(s, v), NewlyReady(g, s, v), rejected)
  }

  ghost function Marked(s: Exec, v: JobId): Exec {
    s.(running := s.running - {v}, failed := s.failed + {v})
  }

  ghost function Step(g: Graph, failFast: bool, s: Exec, e: Event): Exec {
    match e
    case JobComplete(v, rejected) => Checked(g, Dispatched(g, s, v, rejected), rejected)
    case JobFailed(v, rejected) =>
      if failFast then Fail(g, Marked(s, v)) else Checked(g, Marked(s, v), rejected)
    case CancelDag => s.(status := Cancelled, cancelled := s.cancelled + Unfinished(g, s))
  }

  // ---- runs

  /** Completions and failures are reported for running jobs only. */
  ghost predicate WellFormed(s: Exec, e: Event) {
    e.CancelDag? || e.job in s.running
  }

  ghost function After(g: Graph, failFast: bool, s: Exec, events: seq<Event>): Exec {
    if events == [] then s
    else Step(g, failFast, After(g, failFast, s, events[..|events| - 1]), events[|events| - 1])
  }

  ghost predicate IsRun(g: Graph, failFast: bool, s: Exec, events: seq<Event>) {
    events == [] || (
      && IsRun(g, failFast, s, events[..|events| - 1])
      && WellFormed(After(g, failFast, s, events[..|events| - 1]), events[|events| - 1]))
  }

  ghost predicate NoCancel(events: seq<Event>) {
    forall i :: 0 <= i < |events| ==> !events[i].CancelDag?
  }

  // ---- what holds in every reachable state

  /** Jobs are running, completed or failed at most one at a time. */
  ghost predicate Disjoint(g: Graph, s: Exec) {
    && s.running <= g.Keys && s.completed <= g.Keys && s.failed <= g.Keys && s.cancelled <= g.Keys
    && (forall v :: v in s.running ==> v !in s.completed && v !in s.failed)
    && (forall v :: v in s.completed ==> v !in s.failed)
  }

  /** A job is dispatched only once all its dependencies have completed. */
  ghost predicate Safe(g: Graph, s: Exec) {
    forall v :: v in g && (v in s.running || v in s.completed || v in s.failed) ==> g[v] <= s.completed
  }

  /** A job whose dependencies have all completed is not left waiting. */
  ghost predicate Eager(g: Graph, s: Exec) {
    forall v :: v in g && g[v] <= s.completed ==> Seen(s, v)
  }

  ghost predicate Core(g: Graph, s: Exec) {
    Disjoint(g, s) && Safe(g, s) && Eager(g, s)
  }

  /** Every job is finished or cancelled. */
  ghost predicate Covered(g: Graph, s: Exec) {
    forall v :: v in g ==> v in s.completed || v in s.failed || v in s.cancelled
  }

  lemma NothingReady(g: Graph, s: Exec)
    requires Eager(g, s)
    ensures ReadyAmong(g, s, g.Keys) == {}
  {}

  /** In an eager state the completion check never queues a job: its rescan finds nothing. */
  lemma RescanQueuesNothing(g: Graph, s: Exec, rejected: set<JobId>)
    requires Eager(g, s)
    ensures Checked(g, s, rejected).running == s.running
    ensures Checked(g, s, rejected).failed == s.failed && Checked(g, s, rejected).completed == s.completed
    ensures s.running != {} ==> Checked(g, s, rejected) == s
    ensures s.running == {} && s.failed != {} ==> Checked(g, s, rejected) == Fail(g, s)
    ensures s.running == {} && s.failed == {} ==> Checked(g, s, rejected).status == Completed
  {
    NothingReady(g, s);
  }

  lemma StartedIsCore(g: Graph, rejected: set<JobId>)
    requires Closed(g)
    ensures Core(g, Started(g, rejected))
  {
    forall v | v in g && g[v] <= {} ensures v in Roots(g) {
      assert g[v] == {};
    }
  }

  lemma DispatchedIsCore(g: Graph, s: Exec, v: JobId, rejected: set<JobId>)
    requires Core(g, s) && v in s.running
    ensures Core(g, Dispatched(g, s, v, rejected))
  {
    var s', newly := Finished(s, v), NewlyReady(g, s, v);
    var t := Dispatched(g, s, v, rejected);
    forall w | w in g && g[w] <= t.completed ensures Seen(t, w) {
      if g[w] <= s.completed {
        assert Seen(s, w);
      } else {
        assert v in g[w];
        assert w in Dependents(g, v);
        assert Seen(s', w) || w in newly;
      }
    }
  }

  lemma MarkedIsCore(g: Graph, s: Exec, v: JobId)
    requires Core(g, s) && v in s.running
    ensures Core(g, Marked(s, v))
  {
    forall w | w in g && g[w] <= s.completed ensures Seen(Marked(s, v), w) {
      assert Seen(s, w);
    }
  }

  lemma MoreCancelledIsCore(g: Graph, s: Exec, t: Exec)
    requires Core(g, s) && t.cancelled <= g.Keys && s.cancelled <= t.cancelled
    requires t.running == s.running && t.completed == s.completed && t.failed == s.failed
    ensures Core(g, t)
  {
    forall w | w in g && g[w] <= t.completed ensures Seen(t, w) {
      assert Seen(s, w);
    }
  }

  lemma CheckedIsCore(g: Graph, s: Exec, rejected: set<JobId>)
    requires Core(g, s)
    ensures Core(g, Checked(g, s, rejected))
  {
    RescanQueuesNothing(g, s, rejected);
    MoreCancelledIsCore(g, s, Checked(g, s, rejected));
  }

  /** Dispatch stays safe and eager whatever happens. */
  lemma StepKeepsCore(g: Graph, failFast: bool, s: Exec, e: Event)
    requires Core(g, s) && WellFormed(s, e)
    ensures Core(g, Step(g, failFast, s, e))
  {
    match e {
      case JobComplete(v, rejected) =>
        DispatchedIsCore(g, s, v, rejected);
        CheckedIsCore(g, Dispatched(g, s, v, rejected), rejected);
      case JobFailed(v, rejected) =>
        MarkedIsCore(g, s, v);
        if failFast {
          MoreCancelledIsCore(g, Marked(s, v), Fail(g, Marked(s, v)));
        } else {
          CheckedIsCore(g, Marked(s, v), rejected);
        }
      case CancelDag =>
        MoreCancelledIsCore(g, s, Step(g, failFast, s, e));
    }
  }

  /** Dispatch is safe and eager in every state of every run. */
  lemma {:induction false} RunKeepsCore(g: Graph, failFast: bool, rejected: set<JobId>, events: seq<Event>)
    requires Closed(g) && IsRun(g, failFast, Started(g, rejected), events)
    ensures Core(g, After(g, failFast, Started(g, rejected), events))
  {
    if events == [] {
      StartedIsCore(g, rejected);
    } else {
      var n := |events| - 1;
      RunKeepsCore(g, failFast, rejected, events[..n]);
      StepKeepsCore(g, failFast, After(g, failFast, Started(g, rejected), events[..n]), events[n]);
    }
  }

  // ---- no dispatch after a fail-fast failure or a cancellation

  lemma CoveredStaysIdle(g: Graph, failFast: bool, s: Exec, e: Event)
    requires Core(g, s) && Covered(g, s) && WellFormed(s, e)
    ensures Covered(g, Step(g, failFast, s, e))
    ensures Step(g, failFast, s, e).running <= s.running
  {
    var s' := match e
      case JobComplete(v, rejected) => Dispatched(g, s, v, rejected)
      case JobFailed(v, _) => Marked(s, v)
      case CancelDag => s;
    match e {
      case JobComplete(v, rejected) =>
        DispatchedIsCore(g, s, v, rejected);
        assert NewlyReady(g, s, v) == {};
        RescanQueuesNothing(g, s', rejected);
      case JobFailed(v, rejected) =>
        MarkedIsCore(g, s, v);
        RescanQueuesNothing(g, s', rejected);
      case CancelDag =>
    }
  }

  /** In a stopped execution every job is finished or cancelled, and a failed one has a failed job. */
  ghost predicate Stopped(g: Graph, s: Exec) {
    && (s.status == Failed || s.status == Cancelled ==> Covered(g, s))
    && (s.status == Failed ==> s.failed != {})
  }

  lemma CheckedStopped(g: Graph, s: Exec, t: Exec, rejected: set<JobId>)
    requires Stopped(g, s) && Core(g, t) && t.status == s.status && s.failed <= t.failed
    requires Covered(g, s) ==> Covered(g, t)
    ensures Stopped(g, Checked(g, t, rejected))
    ensures s.status == Failed ==> Checked(g, t, rejected).status == Failed
  {
    RescanQueuesNothing(g, t, rejected);
  }

  lemma StepStopped(g: Graph, failFast: bool, s: Exec, e: Event)
    requires Core(g, s) && Stopped(g, s) && WellFormed(s, e)
    ensures Stopped(g, Step(g, failFast, s, e))
    ensures s.status == Failed && !e.CancelDag? ==> Step(g, failFast, s, e).status == Failed
  {
    match e {
      case JobComplete(v, rejected) =>
        DispatchedIsCore(g, s, v, rejected);
        CheckedStopped(g, s, Dispatched(g, s, v, rejected), rejected);
      case JobFailed(v, rejected) =>
        MarkedIsCore(g, s, v);
        if !failFast {
          CheckedStopped(g, s, Marked(s, v), rejected);
        }
      case CancelDag =>
    }
  }

  /** In every reachable CANCELLED or FAILED state every job is finished or cancelled. */
  lemma {:induction false} RunStopped(g: Graph, failFast: bool, rejected: set<JobId>, events: seq<Event>)
    requires Closed(g) && IsRun(g, failFast, Started(g, rejected), events)
    ensures Stopped(g, After(g, failFast, Started(g, rejected), events))
  {
    if events != [] {
      var n := |events| - 1;
      RunStopped(g, failFast, rejected, events[..n]);
      RunKeepsCore(g, failFast, rejected, events[..n]);
      StepStopped(g, failFast, After(g, failFast, Started(g, rejected), events[..n]), events[n]);
    }
  }

  /** A cancellation, and with fail-fast a failure, stops the DAG. */
  ghost predicate Stops(failFast: bool, e: Event) {
    e.CancelDag? || (failFast && e.JobFailed?)
  }

  lemma StopCovers(g: Graph, failFast: bool, s: Exec, e: Event)
    requires Core(g, s) && Stopped(g, s) && WellFormed(s, e) && Stops(failFast, e)
    ensures Covered(g, Step(g, failFast, s, e))
  {}

  /** After a fail-fast failure or a cancellation, at any point of any run, no job is ever dispatched again. */
  lemma {:induction false} NothingRunsAfterStop(g: Graph, failFast: bool, rejected: set<JobId>, events: seq<Event>,
                                                i: nat)
    requires Closed(g) && IsRun(g, failFast, Started(g, rejected), events)
    requires i < |events| && Stops(failFast, events[i])
    ensures var s := After(g, failFast, Started(g, rejected), events);
            && Covered(g, s)
            && s.running <= After(g, failFast, Started(g, rejected), events[..i + 1]).running
  {
    var n := |events| - 1;
    var s := After(g, failFast, Started(g, rejected), events[..n]);
    RunKeepsCore(g, failFast, rejected, events[..n]);
    if i == n {
      RunStopped(g, failFast, rejected, events[..n]);
      StopCovers(g, failFast, s, events[n]);
      assert events[..i + 1] == events;
    } else {
      NothingRunsAfterStop(g, failFast, rejected, events[..n], i);
      CoveredStaysIdle(g, failFast, s, events[n]);
      assert events[..n][..i + 1] == events[..i + 1];
    }
  }

  /** In every run CANCELLED is left exactly when the last running job completes and no job has failed. */
  lemma CancelledLeftByLastCompletion(g: Graph, failFast: bool, rejected: set<JobId>, events: seq<Event>, e: Event)
    requires Closed(g) && IsRun(g, failFast, Started(g, rejected), events)
    requires var s := After(g, failFast, Started(g, rejected), events); s.status == Cancelled && WellFormed(s, e)
    ensures var s := After(g, failFast, Started(g, rejected), events);
            Step(g, failFast, s, e).status ==
            if e.JobComplete? && s.running == {e.job} && s.failed == {} then Completed else Cancelled
  {
    var s := After(g, failFast, Started(g, rejected), events);
    RunKeepsCore(g, failFast, rejected, events);
    RunStopped(g, failFast, rejected, events);
    CancelledStep(g, failFast, s, e);
  }

  lemma CancelledStep(g: Graph, failFast: bool, s: Exec, e: Event)
    requires Core(g, s) && Covered(g, s) && s.status == Cancelled && WellFormed(s, e)
    ensures Step(g, failFast, s, e).status ==
            if e.JobComplete? && s.running == {e.job} && s.failed == {} then Completed else Cancelled
  {
    match e {
      case JobComplete(v, rejected) =>
        DispatchedIsCore(g, s, v, rejected);
        assert NewlyReady(g, s, v) == {};
        RescanQueuesNothing(g, Dispatched(g, s, v, rejected), rejected);
      case JobFailed(v, rejected) =>
        MarkedIsCore(g, s, v);
        RescanQueuesNothing(g, Marked(s, v), rejected);
      case CancelDag =>
    }
  }

  /** A DAG of one job, cancelled while the job runs, becomes COMPLETED when the job does. */
  lemma CancelledBecomesCompleted(v: JobId, failFast: bool)
    ensures var g: Graph := map[v := {}];
            var events := [CancelDag, JobComplete(v, {})];
            && IsRun(g, failFast, Started(g, {}), events)
            && After(g, failFast, Started(g, {}), events[..1]).status == Cancelled
            && After(g, failFast, Started(g, {}), events).status == Completed
  {
    var g: Graph := map[v := {}];
    var events := [CancelDag, JobComplete(v, {})];
    var s0 := Started(g, {});
    assert Roots(g) == {v} && s0.running == {v};
    var first: seq<Event> := [CancelDag];
    assert first[..0] == [] && events[..1] == first;
    assert IsRun(g, failFast, s0, first[..|first| - 1]) && IsRun(g, failFast, s0, first);
    var s1 := After(g, failFast, s0, first);
    RunStopped(g, failFast, {}, first);
    RunKeepsCore(g, failFast, {}, first);
    CancelledStep(g, failFast, s1, JobComplete(v, {}));
  }

  lemma FailedStays(g: Graph, failFast: bool, rejected: set<JobId>, events: seq<Event>)
    requires Closed(g) && IsRun(g, failFast, Started(g, rejected), events)
    requires events != [] && !events[|events| - 1].CancelDag?
    requires After(g, failFast, Started(g, rejected), events[..|events| - 1]).status == Failed
    ensures After(g, failFast, Started(g, rejected), events).status == Failed
  {
    var n := |events| - 1;
    RunKeepsCore(g, failFast, rejected, events[..n]);
    RunStopped(g, failFast, rejected, events[..n]);
    StepStopped(g, failFast, After(g, failFast, Started(g, rejected), events[..n]), events[n]);
  }

  /** FAILED is final: whatever happened before, only a cancellation leaves it. */
  lemma {:induction false} FailedIsFinal(g: Graph, failFast: bool, rejected: set<JobId>, events: seq<Event>, i: nat)
    requires Closed(g) && IsRun(g, failFast, Started(g, rejected), events)
    requires i <= |events| && After(g, failFast, Started(g, rejected), events[..i]).status == Failed
    requires forall k :: i <= k < |events| ==> !events[k].CancelDag?
    ensures After(g, failFast, Started(g, rejected), events).status == Failed
  {
    if i == |events| {
      assert events[..i] == events;
    } else {
      var n := |events| - 1;
      assert events[..n][..i] == events[..i];
      FailedIsFinal(g, failFast, rejected, events[..n], i);
      FailedStays(g, failFast, rejected, events);
    }
  }

  // ---- which jobs are cancelled, and which callbacks fire, in every run

  /** The DAG has been cancelled or has failed at some point of the run. */
  ghost predicate HasStopped(g: Graph, failFast: bool, s: Exec, events: seq<Event>) {
    events != [] && (
      || HasStopped(g, failFast, s, events[..|events| - 1])
      || events[|events| - 1].CancelDag?
      || After(g, failFast, s, events).status == Failed)
  }

  /** What an event adds to the cancelled jobs: nothing, or all that are then unfinished. */
  lemma StepCancels(g: Graph, failFast: bool, s: Exec, e: Event)
    requires Core(g, s) && WellFormed(s, e)
    ensures var t := Step(g, failFast, s, e);
            && s.completed <= t.completed && s.failed <= t.failed
            && (t.cancelled == s.cancelled || t.cancelled == s.cancelled + (g.Keys - t.completed - t.failed))
            && (e.CancelDag? || (t.status == Failed && s.status != Failed) ==>
                  t.cancelled == s.cancelled + (g.Keys - t.completed - t.failed))
            && (!e.CancelDag? && t.status != Failed ==> t.cancelled == s.cancelled)
  {
    match e {
      case JobComplete(v, rejected) =>
        DispatchedIsCore(g, s, v, rejected);
        RescanQueuesNothing(g, Dispatched(g, s, v, rejected), rejected);
      case JobFailed(v, rejected) =>
        MarkedIsCore(g, s, v);
        RescanQueuesNothing(g, Marked(s, v), rejected);
      case CancelDag =>
    }
  }

  lemma {:induction false} NothingCancelledBefore(g: Graph, failFast: bool, rejected: set<JobId>, events: seq<Event>)
    requires Closed(g) && IsRun(g, failFast, Started(g, rejected), events)
    requires !HasStopped(g, failFast, Started(g, rejected), events)
    ensures After(g, failFast, Started(g, rejected), events).cancelled == {}
    ensures After(g, failFast, Started(g, rejected), events).status != Failed
  {
    if events != [] {
      var n := |events| - 1;
      NothingCancelledBefore(g, failFast, rejected, events[..n]);
      RunKeepsCore(g, failFast, rejected, events[..n]);
      StepCancels(g, failFast, After(g, failFast, Started(g, rejected), events[..n]), events[n]);
    }
  }

  /** The run has just stopped for the first time. */
  ghost predicate FirstStop(g: Graph, failFast: bool, s: Exec, events: seq<Event>) {
    events != [] && HasStopped(g, failFast, s, events) && !HasStopped(g, failFast, s, events[..|events| - 1])
  }

  /**
   * In every run, with or without fail-fast and with any number of cancellations, the cancelled jobs are exactly those
   * that were neither completed nor failed when the DAG was first cancelled or failed; before that there are none.
   */
  lemma {:induction false} CancelledSetIsExact(g: Graph, failFast: bool, rejected: set<JobId>, events: seq<Event>,
                                               i: nat)
    requires Closed(g) && IsRun(g, failFast, Started(g, rejected), events)
    requires i <= |events| && FirstStop(g, failFast, Started(g, rejected), events[..i])
    ensures var s, first := After(g, failFast, Started(g, rejected), events),
                            After(g, failFast, Started(g, rejected), events[..i]);
            && s.cancelled == g.Keys - first.completed - first.failed
            && first.completed <= s.completed && first.failed <= s.failed
  {
    var n := |events| - 1;
    var s := After(g, failFast, Started(g, rejected), events[..n]);
    RunKeepsCore(g, failFast, rejected, events[..n]);
    StepCancels(g, failFast, s, events[n]);
    if i == |events| {
      assert events[..i] == events;
      NothingCancelledBefore(g, failFast, rejected, events[..n]);
    } else {
      assert events[..n][..i] == events[..i];
      CancelledSetIsExact(g, failFast, rejected, events[..n], i);
    }
  }

  /** The run has had the status at some point. */
  ghost predicate EverHad(g: Graph, failFast: bool, s: Exec, events: seq<Event>, status: DagStatus) {
    || After(g, failFast, s, events).status == status
    || (events != [] && EverHad(g, failFast, s, events[..|events| - 1], status))
  }

  /** The callbacks that have fired tell which of COMPLETED and FAILED the DAG has been, and neither can follow. */
  ghost predicate CallsTell(s: Exec, everCompleted: bool, everFailed: bool) {
    && s.completeCalls == (if everCompleted then 1 else 0)
    && s.failedCalls == (if everFailed then 1 else 0)
    && (everCompleted ==> !everFailed && s.running == {} && s.status in {Completed, Cancelled})
    && (everFailed ==> s.failed != {} && s.status in {Failed, Cancelled})
    && (s.status == Completed ==> everCompleted) && (s.status == Failed ==> everFailed)
  }

  lemma StepCallsTell(g: Graph, failFast: bool, s: Exec, e: Event, everCompleted: bool, everFailed: bool)
    requires Core(g, s) && WellFormed(s, e) && CallsTell(s, everCompleted, everFailed)
    ensures var t := Step(g, failFast, s, e);
            CallsTell(t, everCompleted || t.status == Completed, everFailed || t.status == Failed)
  {
    match e {
      case JobComplete(v, rejected) =>
        DispatchedIsCore(g, s, v, rejected);
        RescanQueuesNothing(g, Dispatched(g, s, v, rejected), rejected);
      case JobFailed(v, rejected) =>
        MarkedIsCore(g, s, v);
        RescanQueuesNothing(g, Marked(s, v), rejected);
      case CancelDag =>
    }
  }

  /**
   * In every run, cancellations included: the completion callback has fired exactly once if the DAG has ever been
   * COMPLETED, the failure callback exactly once if it has ever been FAILED, and never both. A cancellation fires none.
   */
  lemma {:induction false} CallbacksTellHistory(g: Graph, failFast: bool, rejected: set<JobId>, events: seq<Event>)
    requires Closed(g) && IsRun(g, failFast, Started(g, rejected), events)
    ensures CallsTell(After(g, failFast, Started(g, rejected), events),
                      EverHad(g, failFast, Started(g, rejected), events, Completed),
                      EverHad(g, failFast, Started(g, rejected), events, Failed))
    ensures var s := After(g, failFast, Started(g, rejected), events); s.completeCalls + s.failedCalls <= 1
  {
    if events != [] {
      var n := |events| - 1;
      CallbacksTellHistory(g, failFast, rejected, events[..n]);
      RunKeepsCore(g, failFast, rejected, events[..n]);
      StepCallsTell(g, failFast, After(g, failFast, Started(g, rejected), events[..n]), events[n],
                    EverHad(g, failFast, Started(g, rejected), events[..n], Completed),
                    EverHad(g, failFast, Started(g, rejected), events[..n], Failed));
    }
  }

  // ---- runs without cancellation

  /** The status tells what is left to do, and each callback has fired exactly when its status was entered. */
  ghost predicate Uncancelled(g: Graph, failFast: bool, s: Exec) {
    && Core(g, s)
    && s.status != Cancelled
    && s.completeCalls == (if s.status == Completed then 1 else 0)
    && s.failedCalls == (if s.status == Failed then 1 else 0)
    && (s.status == Running ==> s.cancelled == {})
    && (s.status == Completed ==> s.running == {} && s.failed == {} && s.cancelled == {})
    && (s.status == Failed ==> s.failed != {} && Covered(g, s))
    && (s.status == Failed && !failFast ==> s.running == {} && s.cancelled == Unfinished(g, s))
  }

  lemma CheckedUncancelled(g: Graph, failFast: bool, s: Exec, t: Exec, rejected: set<JobId>)
    requires Uncancelled(g, failFast, s) && Core(g, t)
    requires t.status == s.status && t.cancelled == s.cancelled
    requires t.completeCalls == s.completeCalls && t.failedCalls == s.failedCalls
    requires s.failed <= t.failed && (Covered(g, s) ==> Covered(g, t))
    requires s.running != {}
    ensures Uncancelled(g, failFast, Checked(g, t, rejected))
    ensures Checked(g, t, rejected).status == Running ==> Checked(g, t, rejected).running != {}
    ensures s.status == Failed ==> Checked(g, t, rejected).status == Failed
  {
    RescanQueuesNothing(g, t, rejected);
    CheckedIsCore(g, t, rejected);
  }

  lemma StepUncancelled(g: Graph, failFast: bool, s: Exec, e: Event)
    requires Uncancelled(g, failFast, s) && WellFormed(s, e) && !e.CancelDag?
    ensures Uncancelled(g, failFast, Step(g, failFast, s, e))
    ensures Step(g, failFast, s, e).status == Running ==> Step(g, failFast, s, e).running != {}
    ensures s.status == Failed ==> Step(g, failFast, s, e).status == Failed
  {
    match e {
      case JobComplete(v, rejected) =>
        DispatchedIsCore(g, s, v, rejected);
        CheckedUncancelled(g, failFast, s, Dispatched(g, s, v, rejected), rejected);
      case JobFailed(v, rejected) =>
        MarkedIsCore(g, s, v);
        if failFast {
          StepKeepsCore(g, failFast, s, e);
        } else {
          CheckedUncancelled(g, failFast, s, Marked(s, v), rejected);
        }
    }
  }

  lemma {:induction false} RunUncancelled(g: Graph, failFast: bool, rejected: set<JobId>, events: seq<Event>)
    requires Closed(g) && IsRun(g, failFast, Started(g, rejected), events) && NoCancel(events)
    ensures var s := After(g, failFast, Started(g, rejected), events);
            && Uncancelled(g, failFast, s)
            && (Started(g, rejected).running != {} && s.status == Running ==> s.running != {})
  {
    if events == [] {
      StartedIsCore(g, rejected);
    } else {
      var n := |events| - 1;
      RunUncancelled(g, failFast, rejected, events[..n]);
      StepUncancelled(g, failFast, After(g, failFast, Started(g, rejected), events[..n]), events[n]);
    }
  }

  ghost predicate NoneRejected(events: seq<Event>) {
    forall i :: 0 <= i < |events| && !events[i].CancelDag? ==> events[i].rejected == {}
  }

  /** With fail-fast, and as long as no submission is refused, one failed job makes the DAG FAILED. */
  lemma {:induction false} FailFastFails(g: Graph, events: seq<Event>)
    requires Closed(g) && IsRun(g, true, Started(g, {}), events) && NoCancel(events) && NoneRejected(events)
    ensures var s := After(g, true, Started(g, {}), events); s.failed != {} ==> s.status == Failed
  {
    if events != [] {
      var n := |events| - 1;
      var s, e := After(g, true, Started(g, {}), events[..n]), events[n];
      FailFastFails(g, events[..n]);
      RunUncancelled(g, true, {}, events[..n]);
      StepUncancelled(g, true, s, e);
      if e.JobComplete? {
        DispatchedIsCore(g, s, e.job, {});
        RescanQueuesNothing(g, Dispatched(g, s, e.job, {}), {});
      }
    }
  }

  // ---- progress

  /** Every event strictly shrinks the set of unfinished jobs. */
  lemma StepShrinksUnfinished(g: Graph, failFast: bool, s: Exec, e: Event)
    requires Core(g, s) && WellFormed(s, e) && !e.CancelDag?
    ensures Unfinished(g, Step(g, failFast, s, e)) < Unfinished(g, s)
  {
    assert e.job in Unfinished(g, s);
    match e {
      case JobComplete(v, rejected) =>
        DispatchedIsCore(g, s, v, rejected);
        RescanQueuesNothing(g, Dispatched(g, s, v, rejected), rejected);
      case JobFailed(v, rejected) =>
        MarkedIsCore(g, s, v);
        RescanQueuesNothing(g, Marked(s, v), rejected);
    }
  }

  lemma {:induction false} RunIsBounded(g: Graph, failFast: bool, rejected: set<JobId>, events: seq<Event>)
    requires Closed(g) && IsRun(g, failFast, Started(g, rejected), events) && NoCancel(events)
    ensures |events| + |Unfinished(g, After(g, failFast, Started(g, rejected), events))| <= |g|
  {
    var s0 := Started(g, rejected);
    if events == [] {
      SubsetCardinality(Unfinished(g, s0), g.Keys);
    } else {
      var n := |events| - 1;
      var s := After(g, failFast, s0, events[..n]);
      RunIsBounded(g, failFast, rejected, events[..n]);
      RunKeepsCore(g, failFast, rejected, events[..n]);
      StepShrinksUnfinished(g, failFast, s, events[n]);
      SubsetCardinality(Unfinished(g, Step(g, failFast, s, events[n])), Unfinished(g, s));
    }
  }

  /** Without cancellation a DAG with an accepted root that is RUNNING has a running job. */
  lemma RunIsNeverStuck(g: Graph, failFast: bool, rejected: set<JobId>, events: seq<Event>)
    requires Closed(g) && Started(g, rejected).running != {}
    requires IsRun(g, failFast, Started(g, rejected), events) && NoCancel(events)
    ensures var s := After(g, failFast, Started(g, rejected), events);
            s.status == Running ==> s.running != {}
  {
    RunUncancelled(g, failFast, rejected, events);
  }

  /** A run without cancellation has at most as many events as the DAG has jobs. */
  lemma RunTerminates(g: Graph, failFast: bool, rejected: set<JobId>, events: seq<Event>)
    requires Closed(g) && IsRun(g, failFast, Started(g, rejected), events) && NoCancel(events)
    ensures |events| <= |g|
  {
    RunIsBounded(g, failFast, rejected, events);
  }

  /** A DAG whose roots are all rejected, an empty one included, stays RUNNING: no event can ever occur. */
  lemma {:induction false} RejectedRootsStall(g: Graph, failFast: bool, rejected: set<JobId>, events: seq<Event>)
    requires IsRun(g, failFast, Started(g, rejected), events) && NoCancel(events)
    ensures Started(g, rejected).running == {} <==> Roots(g) <= rejected
    ensures Roots(g) <= rejected ==> events == [] && After(g, failFast, Started(g, rejected), events).status == Running
  {
    assert Started(g, rejected).running == Roots(g) - rejected;
    if Roots(g) - rejected == {} {
      forall v | v in Roots(g) ensures v in rejected {
        assert v in rejected || v in Roots(g) - rejected;
      }
    }
    if events != [] && Roots(g) <= rejected {
      RejectedRootsStall(g, failFast, rejected, events[..|events| - 1]);
    }
  }

  // ---- what the final status means

  /** In an acyclic graph a job that never started has an unfinished ancestor, back to one that failed. */
  lemma BlockedByFailure(g: Graph, s: Exec, v: JobId)
    requires Closed(g) && !Cyclic(g) && Core(g, s) && s.running == {}
    requires v in Unfinished(g, s)
    requires forall w :: w in Unfinished(g, s) ==> !(g[w] <= s.completed)
    ensures exists u :: u in s.failed && ProperAncestor(g, u, v)
  {
    var clean := set w | w in Unfinished(g, s) && !FailedAncestor(g, s, w);
    if v in clean {
      forall w | w in clean ensures Blocked(g, clean, w) {
        var d :| d in g[w] && d !in s.completed;
        assert Edge(g, d, w);
        if d in s.failed {
          FailedDependency(g, s, d, w);
        } else if FailedAncestor(g, s, d) {
          var u :| u in s.failed && ProperAncestor(g, u, d);
          ExtendAncestor(g, u, d, w);
        }
      }
      StuckIsCyclic(g, clean, v);
    }
  }

  ghost predicate FailedAncestor(g: Graph, s: Exec, v: JobId) {
    exists u :: u in s.failed && ProperAncestor(g, u, v)
  }

  lemma FailedDependency(g: Graph, s: Exec, d: JobId, w: JobId)
    requires d in g && Edge(g, d, w) && d in s.failed
    ensures FailedAncestor(g, s, w)
  {
    assert ChainBetween(g, [d, w], d, w);
  }

  lemma ExtendAncestor(g: Graph, u: JobId, d: JobId, w: JobId)
    requires ProperAncestor(g, u, d) && Edge(g, d, w)
    ensures ProperAncestor(g, u, w)
  {
    var p :| ChainBetween(g, p, u, d) && |p| >= 2;
    ChainConcat(g, p, [w]);
    assert ChainBetween(g, p + [w], u, w);
  }

  /** Everything upstream of a dispatched job has completed. */
  lemma {:induction false} AncestorsCompleted(g: Graph, s: Exec, p: seq<JobId>)
    requires Core(g, s) && IsChain(g, p) && |p| >= 2
    requires var v := p[|p| - 1]; v in s.running || v in s.completed || v in s.failed
    ensures p[0] in s.completed
    decreases |p|
  {
    var n := |p| - 1;
    assert Edge(g, p[n - 1], p[n]);
    if n > 1 {
      ChainSlice(g, p, 0, n);
      AncestorsCompleted(g, s, p[0..n]);
    }
  }

  /** Without fail-fast and cancellation, a failed run splits the jobs into completed, failed and cancelled ones,
      and the cancelled ones are exactly those with a failed proper ancestor. */
  lemma FailedRunPartition(g: Graph, rejected: set<JobId>, events: seq<Event>)
    requires Closed(g) && !Cyclic(g)
    requires IsRun(g, false, Started(g, rejected), events) && NoCancel(events)
    requires After(g, false, Started(g, rejected), events).status == Failed
    ensures var s := After(g, false, Started(g, rejected), events);
            && s.running == {}
            && s.completed + s.failed + s.cancelled == g.Keys
            && s.completed !! s.failed && s.completed !! s.cancelled && s.failed !! s.cancelled
            && s.cancelled == set v | v in g && FailedAncestor(g, s, v)
  {
    var s := After(g, false, Started(g, rejected), events);
    RunUncancelled(g, false, rejected, events);
    RunNeverCancelsReady(g, rejected, events);
    forall v | v in g ensures v in s.cancelled <==> FailedAncestor(g, s, v) {
      if v in s.cancelled {
        BlockedByFailure(g, s, v);
      } else if FailedAncestor(g, s, v) {
        var u :| u in s.failed && ProperAncestor(g, u, v);
        var p :| ChainBetween(g, p, u, v) && |p| >= 2;
        AncestorsCompleted(g, s, p);
      }
    }
  }

  /** Without fail-fast, a job is cancelled only while one of its dependencies is not completed. */
  lemma {:induction false} RunNeverCancelsReady(g: Graph, rejected: set<JobId>, events: seq<Event>)
    requires Closed(g) && IsRun(g, false, Started(g, rejected), events) && NoCancel(events)
    ensures var s := After(g, false, Started(g, rejected), events);
            forall w :: w in g && w in s.cancelled ==> !(g[w] <= s.completed)
  {
    if events != [] {
      var n := |events| - 1;
      var s := After(g, false, Started(g, rejected), events[..n]);
      RunNeverCancelsReady(g, rejected, events[..n]);
      RunUncancelled(g, false, rejected, events[..n]);
      match events[n] {
        case JobComplete(v, rejected') =>
          DispatchedIsCore(g, s, v, rejected');
          RescanQueuesNothing(g, Dispatched(g, s, v, rejected'), rejected');
        case JobFailed(v, rejected') =>
          MarkedIsCore(g, s, v);
          RescanQueuesNothing(g, Marked(s, v), rejected');
        case CancelDag =>
      }
    }
  }

  /** Without cancellation, a run of an acyclic DAG with an accepted root is COMPLETED exactly when all its jobs are. */
  lemma CompletedMeansAllCompleted(g: Graph, failFast: bool, rejected: set<JobId>, events: seq<Event>)
    requires Closed(g) && !Cyclic(g) && Started(g, rejected).running != {}
    requires IsRun(g, failFast, Started(g, rejected), events) && NoCancel(events)
    ensures var s := After(g, failFast, Started(g, rejected), events);
            s.status == Completed <==> s.completed == g.Keys
  {
    var s := After(g, failFast, Started(g, rejected), events);
    RunUncancelled(g, failFast, rejected, events);
    if s.status == Completed {
      NothingLeft(g, s);
    }
  }

  lemma NothingLeft(g: Graph, s: Exec)
    requires Closed(g) && !Cyclic(g) && Core(g, s)
    requires s.running == {} && s.failed == {} && s.cancelled == {}
    ensures s.completed == g.Keys
  {
    var left := g.Keys - s.completed;
    if left != {} {
      forall w | w in left ensures Blocked(g, left, w) {
        assert !Seen(s, w);
        var d :| d in g[w] && d !in s.completed;
        assert Edge(g, d, w);
      }
      var v :| v in left;
      StuckIsCyclic(g, left, v);
    }
  }

  /** Without cancellation exactly one callback fires per finished DAG, exactly once. */
  lemma CallbacksFireOnce(g: Graph, failFast: bool, rejected: set<JobId>, events: seq<Event>)
    requires Closed(g) && IsRun(g, failFast, Started(g, rejected), events) && NoCancel(events)
    ensures var s := After(g, failFast, Started(g, rejected), events);
            && s.completeCalls + s.failedCalls == (if s.status == Running then 0 else 1)
            && (s.completeCalls == 1 <==> s.status == Completed)
            && (s.failedCalls == 1 <==> s.status == Failed)
  {
    RunUncancelled(g, failFast, rejected, events);
  }

  // ---- the executor's data structures

  lemma QueueOne(g: Graph, s: Exec, jobs: set<JobId>, v: JobId, rejected: set<JobId>)
    requires v !in jobs
    ensures Ready(g, Queued(s, ReadyAmong(g, s, jobs), rejected), v) <==> Ready(g, s, v)
    ensures Queued(s, ReadyAmong(g, s, jobs + {v}), rejected) ==
            if Ready(g, s, v) then Queued(Queued(s, ReadyAmong(g, s, jobs), rejected), {v}, rejected)
            else Queued(s, ReadyAmong(g, s, jobs), rejected)
  {
    var before := ReadyAmong(g, s, jobs);
    if Ready(g, s, v) {
      assert ReadyAmong(g, s, jobs + {v}) == before + {v};
      assert s.running + (before + {v} - rejected) == s.running + (before - rejected) + ({v} - rejected);
      assert s.failed + (before + {v}) * rejected == s.failed + before * rejected + {v} * rejected;
    } else {
      assert ReadyAmong(g, s, jobs + {v}) == before;
    }
  }

  class DagExecution {
    const dag: Graph
    const down: Graph
    const failFast: bool
    var status: DagStatus
    var completedJobs: set<JobId>
    var failedJobs: set<JobId>
    var runningJobs: set<JobId>
    var cancelledJobs: set<JobId>
    var completeCalls: nat
    var failedCalls: nat

    ghost function State(): Exec
      reads this
    {
      Exec(status, completedJobs, failedJobs, runningJobs, cancelledJobs, completeCalls, failedCalls)
    }

    constructor (dag: Graph, down: Graph, failFast: bool)
      requires IsAdjacency(dag, down)
      ensures this.dag == dag && this.down == down && this.failFast == failFast
      ensures State() == Exec(Running, {}, {}, {}, {}, 0, 0)
    {
      this.dag, this.down, this.failFast := dag, down, failFast;
      status, completeCalls, failedCalls := Running, 0, 0;
      completedJobs, failedJobs, runningJobs, cancelledJobs := {}, {}, {}, {};
    }

    /** `_queue_job`: the submission either succeeds or raises. */
    method QueueJob(v: JobId, rejected: set<JobId>)
      modifies this
      ensures State() == Queued(old(State()), {v}, rejected)
    {
      if v !in rejected {
        runningJobs := runningJobs + {v};
        assert {v} - rejected == {v} && {v} * rejected == {};
      } else {
        failedJobs := failedJobs + {v};
        assert {v} - rejected == {} && {v} * rejected == {v};
      }
    }

    /** `_is_job_ready`. */
    method IsJobReady(v: JobId) returns (ready: bool)
      ensures ready <==> Ready(dag, State(), v)
    {
      if v !in dag || v in runningJobs || v in completedJobs || v in failedJobs || v in cancelledJobs {
        return false;
      }
      var rest := dag[v];
      while rest != {}
        invariant rest <= dag[v] && dag[v] - rest <= completedJobs
        decreases rest
      {
        var d :| d in rest;
        if d !in completedJobs {
          return false;
        }
        rest := rest - {d};
      }
      return true;
    }

    /** Queues those of the given jobs that are ready, one after the other. */
    method QueueReady(jobs: set<JobId>, rejected: set<JobId>) returns (queued: set<JobId>)
      modifies this
      ensures queued == ReadyAmong(dag, old(State()), jobs)
      ensures State() == Queued(old(State()), queued, rejected)
    {
      ghost var s := State();
      var rest := jobs;
      queued := {};
      assert jobs - rest == {} && ReadyAmong(dag, s, {}) == {} && Queued(s, {}, rejected) == s;
      while rest != {}
        invariant rest <= jobs
        invariant queued == ReadyAmong(dag, s, jobs - rest)
        invariant State() == Queued(s, queued, rejected)
        decreases rest
      {
        var v :| v in rest;
        QueueOne(dag, s, jobs - rest, v, rejected);
        assert jobs - (rest - {v}) == jobs - rest + {v};
        var ready := IsJobReady(v);
        if ready {
          QueueJob(v, rejected);
          queued := queued + {v};
        }
        rest := rest - {v};
      }
      assert jobs - {} == jobs;
    }

    /** Adds every job that is neither completed nor failed to the cancelled ones. */
    method CancelUnfinished()
      modifies this`cancelledJobs
      ensures cancelledJobs == old(cancelledJobs) + Unfinished(dag, State())
    {
      var rest := dag.Keys;
      while rest != {}
        invariant rest <= dag.Keys
        invariant cancelledJobs == old(cancelledJobs) + (Unfinished(dag, State()) - rest)
        decreases rest
      {
        var v :| v in rest;
        if v !in completedJobs && v !in failedJobs {
          cancelledJobs := cancelledJobs + {v};
        }
        rest := rest - {v};
      }
    }

    /** `_fail_dag`. */
    method FailDag()
      modifies this
      ensures State() == Fail(dag, old(State()))
    {
      if status == Failed || status == Cancelled {
        return;
      }
      status := Failed;
      CancelUnfinished();
      failedCalls := failedCalls + 1;
    }

    /** Whether the completed, failed and cancelled jobs, counted one after the other, are fewer than the jobs. */
    method LeavesUnaccounted() returns (b: bool)
      ensures b <==> Count(completedJobs) + Count(failedJobs) + Count(cancelledJobs) < Count(dag.Keys)
    {
      CountIsCardinality(completedJobs);
      CountIsCardinality(failedJobs);
      CountIsCardinality(cancelledJobs);
      CountIsCardinality(dag.Keys);
      b := |completedJobs| + |failedJobs| + |cancelledJobs| < |dag.Keys|;
    }

    /** `_check_dag_completion`. */
    method CheckDagCompletion(rejected: set<JobId>)
      modifies this
      ensures State() == Checked(dag, old(State()), rejected)
    {
      if runningJobs != {} {
        return;
      }
      var unaccounted := LeavesUnaccounted();
      if unaccounted {
        var queued := QueueReady(dag.Keys, rejected);
        if queued != {} {
          return;
        }
        assert State() == old(State());
      }
      if failedJobs != {} {
        FailDag();
      } else {
        status := Completed;
        completeCalls := completeCalls + 1;
      }
    }

    /** `on_job_complete`; returns the jobs it tried to queue. */
    method OnJobComplete(v: JobId, rejected: set<JobId>) returns (newlyQueued: set<JobId>)
      requires IsAdjacency(dag, down)
      modifies this
      ensures State() == Step(dag, failFast, old(State()), JobComplete(v, rejected))
      ensures newlyQueued == NewlyReady(dag, old(State()), v)
    {
      runningJobs := runningJobs - {v};
      completedJobs := completedJobs + {v};
      newlyQueued := {};
      if v in down {
        newlyQueued := QueueReady(down[v], rejected);
      } else {
        assert Dependents(dag, v) == {};
        assert ReadyAmong(dag, State(), {}) == {} && State() == Queued(State(), {}, rejected);
      }
      assert State() == Dispatched(dag, old(State()), v, rejected);
      CheckDagCompletion(rejected);
    }

    /** `on_job_failed`. */
    method OnJobFailed(v: JobId, rejected: set<JobId>)
      modifies this
      ensures State() == Step(dag, failFast, old(State()), JobFailed(v, rejected))
    {
      runningJobs := runningJobs - {v};
      failedJobs := failedJobs + {v};
      if failFast {
        FailDag();
      } else {
        CheckDagCompletion(rejected);
      }
    }

    /** `cancel_dag`; returns the jobs the scheduler is asked to cancel, whose answers are ignored. */
    method Cancel() returns (asked: set<JobId>)
      modifies this
      ensures State() == Step(dag, failFast, old(State()), CancelDag)
      ensures asked == Unfinished(dag, old(State()))
    {
      status := Cancelled;
      CancelUnfinished();
      asked := dag.Keys - completedJobs - failedJobs;
    }
  }

  /** The UUID of a DAG. */
  datatype DagId = DagId(uuid: nat)

  class DagExecutor {
    var activeDags: map<DagId, DagExecution>
    var jobToDag: map<JobId, DagId>

    /** Each active DAG has its own execution record. */
    ghost predicate Valid()
      reads this
    {
      && (forall d, e :: d in activeDags && e in activeDags && d != e ==> activeDags[d] != activeDags[e])
      && (forall d :: d in activeDags ==> IsAdjacency(activeDags[d].dag, activeDags[d].down))
    }

    constructor ()
      ensures Valid() && activeDags == map[] && jobToDag == map[]
    {
      activeDags, jobToDag := map[], map[];
    }

    /** `start_dag`: registers the jobs and queues the roots; completion is not checked here. */
    method StartDag(id: DagId, dag: Graph, down: Graph, failFast: bool, rejected: set<JobId>)
      requires Valid() && IsAdjacency(dag, down)
      modifies this
      ensures Valid() && activeDags.Keys == old(activeDags.Keys) + {id}
      ensures fresh(activeDags[id]) && activeDags[id].State() == Started(dag, rejected)
      ensures activeDags[id].dag == dag && activeDags[id].failFast == failFast
      ensures forall d :: d in old(activeDags) && d != id ==> activeDags[d] == old(activeDags)[d]
      ensures jobToDag == old(jobToDag) + map v | v in dag :: id
    {
      var execution := new DagExecution(dag, down, failFast);
      activeDags := activeDags[id := execution];
      jobToDag := jobToDag + map v | v in dag :: id;
      var rest := set v | v in dag && dag[v] == {};
      ghost var roots := rest;
      ghost var s := execution.State();
      assert Queued(s, {}, rejected) == s && roots - rest == {};
      while rest != {}
        invariant rest <= roots
        invariant execution.State() == Queued(s, roots - rest, rejected)
        invariant activeDags == old(activeDags)[id := execution]
        invariant jobToDag == old(jobToDag) + map v | v in dag :: id
        decreases rest
      {
        var v :| v in rest;
        execution.QueueJob(v, rejected);
        QueueAnother(s, roots - rest, v, rejected);
        assert roots - (rest - {v}) == roots - rest + {v};
        rest := rest - {v};
      }
      assert roots - {} == Roots(dag);
    }

    /** The execution a job event is delivered to, if there is one. */
    function Target(v: JobId): (e: DagExecution?)
      reads this
    {
      if v in jobToDag && jobToDag[v] in activeDags then activeDags[jobToDag[v]] else null
    }

    /** Completing a job touches the execution of its own DAG only; an unknown job is ignored. */
    method OnJobComplete(v: JobId, rejected: set<JobId>) returns (newlyQueued: set<JobId>)
      requires Valid()
      modifies if Target(v) == null then {} else {Target(v)}
      ensures Target(v) == null ==> newlyQueued == {}
      ensures Target(v) != null ==>
                Target(v).State() ==
                Step(Target(v).dag, Target(v).failFast, old(Target(v).State()), JobComplete(v, rejected))
      ensures Target(v) != null ==> newlyQueued == NewlyReady(Target(v).dag, old(Target(v).State()), v)
    {
      newlyQueued := {};
      if v in jobToDag && jobToDag[v] in activeDags {
        var execution := activeDags[jobToDag[v]];
        assert IsAdjacency(execution.dag, execution.down);
        newlyQueued := execution.OnJobComplete(v, rejected);
      }
    }

    method OnJobFailed(v: JobId, rejected: set<JobId>)
      requires Valid()
      modifies if Target(v) == null then {} else {Target(v)}
      ensures Target(v) != null ==>
                Target(v).State() ==
                Step(Target(v).dag, Target(v).failFast, old(Target(v).State()), JobFailed(v, rejected))
    {
      if v in jobToDag && jobToDag[v] in activeDags {
        activeDags[jobToDag[v]].OnJobFailed(v, rejected);
      }
    }

    method CancelExecution(id: DagId) returns (found: bool, asked: set<JobId>)
      requires Valid()
      modifies if id in activeDags then {activeDags[id]} else {}
      ensures found <==> id in activeDags
      ensures asked == if found then Unfinished(activeDags[id].dag, old(activeDags[id].State())) else {}
      ensures found ==>
                activeDags[id].State() ==
                Step(activeDags[id].dag, activeDags[id].failFast, old(activeDags[id].State()), CancelDag)
    {
      found, asked := id in activeDags, {};
      if found {
        asked := activeDags[id].Cancel();
      }
    }
  }

  lemma QueueAnother(s: Exec, jobs: set<JobId>, v: JobId, rejected: set<JobId>)
    ensures Queued(Queued(s, jobs, rejected), {v}, rejected) == Queued(s, jobs + {v}, rejected)
  {
    assert s.running + (jobs - rejected) + ({v} - rejected) == s.running + (jobs + {v} - rejected);
    assert s.failed + jobs * rejected + {v} * rejected == s.failed + (jobs + {v}) * rejected;
  }
}
