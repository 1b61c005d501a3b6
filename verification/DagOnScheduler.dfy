/** The DAG executor on top of the scheduler: it submits to it, and hears of the jobs that end there. */
module DagOnScheduler {
  import opened Collections
  import opened Graphs
  import opened JobStates
  import opened PriorityQueues
  import E = DagExecution
  import S = Schedulers

  /** The jobs of a DAG as they are submitted. */
  ghost predicate Submittable(g: Graph, specs: map<JobId, S.Job>) {
    Closed(g) && specs.Keys == g.Keys && forall v :: v in g ==> S.Fresh(specs[v])
  }

  /** The scheduler with its workers, the execution of one DAG, and what the executor has been told. */
  datatype Combined = Combined(world: S.World, exec: E.Exec, heard: seq<E.Event>)

  datatype Act =
    | Other(e: S.Event)
    | Finish(e: S.Event, order: seq<JobId>)
    | CancelDag(order: seq<JobId>)

  /** The step ends the job: the scheduler completes it, or fails it without a retry. */
  ghost predicate Ends(w: S.World, e: S.Event) {
    (e.Succeed? || e.Fail?) && e.id in w.core.jobs && (
      var job := w.core.jobs[e.id];
      if e.Succeed? then CanTransition(job.state, Completed)
      else !S.Retries(job, e.retryable) && CanTransition(job.state, JobState.Failed))
  }

  ghost predicate Lists(order: seq<JobId>, jobs: set<JobId>) {
    Distinct(order) && Elements(order) == jobs
  }

  /**
   * Steps of the scheduler that submit or end a job of the DAG go through the executor: it alone submits them, and it
   * is told when one ends. The orders are those in which it goes through its sets.
   */
  ghost predicate Enabled(g: Graph, c: Combined, act: Act) {
    match act
    case Other(e) =>
      && S.WellFormed(c.world, e)
      && (e.Submit? ==> e.id !in g)
      && !(Ends(c.world, e) && e.id in g)
    case Finish(e, order) =>
      && S.WellFormed(c.world, e) && Ends(c.world, e) && e.id in g
      && Lists(order, if e.Succeed? then E.NewlyReady(g, c.exec, e.id) else {})
    case CancelDag(order) => Lists(order, E.Unfinished(g, c.exec))
  }

  ghost function SubmitAll(specs: map<JobId, S.Job>, w: S.World, order: seq<JobId>): S.World
    requires forall v :: v in order ==> v in specs
  {
    if order == [] then w
    else S.Step(SubmitAll(specs, w, order[..|order| - 1]), S.Submit(order[|order| - 1], specs[order[|order| - 1]]))
  }

  ghost function CancelAll(w: S.World, order: seq<JobId>): S.World {
    if order == [] then w else S.Step(CancelAll(w, order[..|order| - 1]), S.Cancel(order[|order| - 1]))
  }

  /** The submissions that raise: those of ids the store already has. */
  ghost function Known(w: S.World, order: seq<JobId>): set<JobId> {
    set v | v in order && v in w.core.jobs
  }

  ghost function Told(c: Combined, act: Act): E.Event
    requires !act.Other? && (act.Finish? ==> act.e.Succeed? || act.e.Fail?)
  {
    match act
    case Finish(e, order) =>
      if e.Succeed? then E.JobComplete(e.id, Known(S.Step(c.world, e), order)) else E.JobFailed(e.id, {})
    case CancelDag(_) => E.Event.CancelDag
  }

  ghost function Step(g: Graph, failFast: bool, specs: map<JobId, S.Job>, c: Combined, act: Act): Combined
    requires Submittable(g, specs) && Enabled(g, c, act)
  {
    match act
    case Other(e) => c.(world := S.Step(c.world, e))
    case Finish(e, order) =>
      OrderIsSubmittable(g, specs, c, act);
      Combined(SubmitAll(specs, S.Step(c.world, e), order),
               E.Step(g, failFast, c.exec, Told(c, act)), c.heard + [Told(c, act)])
    case CancelDag(order) =>
      Combined(CancelAll(c.world, order), E.Step(g, failFast, c.exec, Told(c, act)), c.heard + [Told(c, act)])
  }

  lemma OrderIsSubmittable(g: Graph, specs: map<JobId, S.Job>, c: Combined, act: Act)
    requires Submittable(g, specs) && Enabled(g, c, act) && act.Finish?
    ensures forall v :: v in act.order ==> v in specs
  {
    forall v | v in act.order ensures v in specs {
      assert v in Elements(act.order);
    }
  }

  // ---- the invariant that ties the two together

  /** What the executor counts as running, completed or failed agrees with the job's state in the store. */
  ghost predicate Agrees(s: E.Exec, w: S.World, v: JobId) {
    var jobs := w.core.jobs;
    && (v in s.running ==> v in jobs && jobs[v].state in {Scheduled, Running, Cancelled})
    && (v in s.completed ==> v in jobs && jobs[v].state == Completed)
    && (v in s.failed ==> v in jobs && jobs[v].state == JobState.Failed)
    && (v !in s.running && v !in s.completed && v !in s.failed ==> v !in jobs)
  }

  /** The queue is unbounded; the executor is told of a full one by an exception. */
  ghost predicate Tied(g: Graph, w: S.World, s: E.Exec) {
    && S.SInv(w) && w.maxSize.None? && E.Core(g, s)
    && forall v {:trigger Agrees(s, w, v)} :: v in g ==> Agrees(s, w, v)
  }

  /** A job of the DAG that ends in the scheduler is one the executor counts as running. */
  lemma EndedWasRunning(g: Graph, c: Combined, e: S.Event)
    requires Tied(g, c.world, c.exec) && S.WellFormed(c.world, e) && Ends(c.world, e) && e.id in g
    ensures e.id in c.exec.running && c.world.core.jobs[e.id].state == Running
  {
    assert S.Placed(c.world, e.id) && Agrees(c.exec, c.world, e.id);
  }

  /** How one scheduler step that neither submits nor ends a job of the DAG changes the state of one of them. */
  lemma OtherKeepsAgreement(g: Graph, w: S.World, s: E.Exec, e: S.Event, v: JobId)
    requires S.SInv(w) && S.WellFormed(w, e) && v in g && Agrees(s, w, v)
    requires (e.Submit? ==> e.id !in g) && !(Ends(w, e) && e.id in g)
    ensures Agrees(s, S.Step(w, e), v)
  {
    assert S.Placed(w, v);
    if e.GetNext? {
    } else if e.id != v {
      S.StepLeavesOthers(w, e, v);
    }
  }

  lemma OtherKeepsTie(g: Graph, w: S.World, s: E.Exec, e: S.Event)
    requires Tied(g, w, s) && S.WellFormed(w, e)
    requires (e.Submit? ==> e.id !in g) && !(Ends(w, e) && e.id in g)
    ensures Tied(g, S.Step(w, e), s)
  {
    S.StepKeepsInv(w, e);
    forall v {:trigger Agrees(s, S.Step(w, e), v)} | v in g ensures Agrees(s, S.Step(w, e), v) {
      assert Agrees(s, w, v);
      OtherKeepsAgreement(g, w, s, e, v);
    }
  }

  lemma {:induction false} CancelAllKeepsTie(g: Graph, w: S.World, s: E.Exec, order: seq<JobId>)
    requires Tied(g, w, s)
    ensures Tied(g, CancelAll(w, order), s)
  {
    if order != [] {
      CancelAllKeepsTie(g, w, s, order[..|order| - 1]);
      OtherKeepsTie(g, CancelAll(w, order[..|order| - 1]), s, S.Cancel(order[|order| - 1]));
    }
  }

  /** Submitting jobs the store does not have adds exactly them, SCHEDULED. */
  lemma {:induction false} SubmitAllAdds(specs: map<JobId, S.Job>, w: S.World, order: seq<JobId>)
    requires S.SInv(w) && w.maxSize.None? && Distinct(order)
    requires forall v :: v in order ==> v in specs && S.Fresh(specs[v]) && v !in w.core.jobs
    ensures var w' := SubmitAll(specs, w, order);
            && S.SInv(w') && w'.maxSize.None?
            && (forall v :: v in order ==> v in w'.core.jobs && w'.core.jobs[v].state == Scheduled)
            && (forall v :: v !in order ==>
                  (v in w'.core.jobs <==> v in w.core.jobs)
                  && (v in w.core.jobs ==> w'.core.jobs[v] == w.core.jobs[v]))
  {
    if order != [] {
      var n := |order| - 1;
      var w1, v := SubmitAll(specs, w, order[..n]), order[n];
      assert order == order[..n] + [v] && v !in order[..n];
      SubmitAllAdds(specs, w, order[..n]);
      OneSubmission(w1, v, specs[v]);
    }
  }

  lemma OneSubmission(w: S.World, v: JobId, job: S.Job)
    requires S.SInv(w) && w.maxSize.None? && S.Fresh(job) && v !in w.core.jobs
    ensures var w' := S.Step(w, S.Submit(v, job));
            && S.SInv(w') && w'.maxSize.None?
            && w'.core.jobs == w.core.jobs[v := job.(state := Scheduled)]
            && Live(w'.core.queue, v)
  {
    assert S.Placed(w, v);
    S.SubmitKeepsInv(w, v, job);
  }

  /** What the executor is about to submit when a job completes is not in the store yet: no submission raises. */
  lemma NewlyReadyUnknown(g: Graph, w: S.World, s: E.Exec, v: JobId, order: seq<JobId>)
    requires Tied(g, w, s) && v in s.running && Lists(order, E.NewlyReady(g, s, v))
    ensures forall u :: u in order ==> u in g && u != v && u !in w.core.jobs
  {
    forall u | u in order ensures u in g && u != v && u !in w.core.jobs {
      assert u in Elements(order);
      assert E.Ready(g, E.Finished(s, v), u);
      assert Agrees(s, w, u);
    }
  }

  lemma EndingStep(w: S.World, e: S.Event)
    requires S.SInv(w) && S.WellFormed(w, e) && Ends(w, e)
    ensures var w' := S.Step(w, e);
            && w'.core.jobs.Keys == w.core.jobs.Keys
            && w'.core.jobs[e.id].state == (if e.Succeed? then Completed else JobState.Failed)
            && forall v :: v in w.core.jobs && v != e.id ==> w'.core.jobs[v] == w.core.jobs[v]
  {
    assert S.Placed(w, e.id);
  }

  /** The executor's part of a completion. */
  lemma CompletionSets(g: Graph, failFast: bool, s: E.Exec, v: JobId)
    requires E.Core(g, s) && v in s.running
    ensures var s' := E.Step(g, failFast, s, E.JobComplete(v, {}));
            && E.Core(g, s')
            && s'.running == s.running - {v} + E.NewlyReady(g, s, v)
            && s'.completed == s.completed + {v} && s'.failed == s.failed
  {
    E.StepKeepsCore(g, failFast, s, E.JobComplete(v, {}));
    E.DispatchedIsCore(g, s, v, {});
    E.RescanQueuesNothing(g, E.Dispatched(g, s, v, {}), {});
  }

  lemma FailureSets(g: Graph, failFast: bool, s: E.Exec, v: JobId)
    requires E.Core(g, s) && v in s.running
    ensures var s' := E.Step(g, failFast, s, E.JobFailed(v, {}));
            && E.Core(g, s')
            && s'.running == s.running - {v} && s'.completed == s.completed && s'.failed == s.failed + {v}
  {
    E.StepKeepsCore(g, failFast, s, E.JobFailed(v, {}));
    E.MarkedIsCore(g, s, v);
    E.RescanQueuesNothing(g, E.Marked(s, v), {});
  }

  lemma CompletionKeepsTie(g: Graph, failFast: bool, specs: map<JobId, S.Job>, c: Combined, e: S.Event,
                           order: seq<JobId>)
    requires Submittable(g, specs) && Tied(g, c.world, c.exec) && e.Succeed?
    requires Enabled(g, c, Finish(e, order))
    ensures e.id in c.exec.running && Known(S.Step(c.world, e), order) == {}
    ensures var c' := Step(g, failFast, specs, c, Finish(e, order)); Tied(g, c'.world, c'.exec)
  {
    var s, w, v, w1 := c.exec, c.world, e.id, S.Step(c.world, e);
    EndedWasRunning(g, c, e);
    NewlyReadyUnknown(g, w, s, v, order);
    EndingStep(w, e);
    S.StepKeepsInv(w, e);
    assert Known(w1, order) == {};
    CompletionSets(g, failFast, s, v);
    SubmitAllAdds(specs, w1, order);
    var s', w' := E.Step(g, failFast, s, E.JobComplete(v, {})), SubmitAll(specs, w1, order);
    forall x {:trigger Agrees(s', w', x)} | x in g ensures Agrees(s', w', x) {
      assert Agrees(s, w, x) && (x in order <==> x in Elements(order));
    }
  }

  lemma FailureKeepsTie(g: Graph, failFast: bool, specs: map<JobId, S.Job>, c: Combined, e: S.Event)
    requires Submittable(g, specs) && Tied(g, c.world, c.exec) && e.Fail?
    requires Enabled(g, c, Finish(e, []))
    ensures e.id in c.exec.running
    ensures var c' := Step(g, failFast, specs, c, Finish(e, [])); Tied(g, c'.world, c'.exec)
  {
    var s, w, v, w' := c.exec, c.world, e.id, S.Step(c.world, e);
    EndedWasRunning(g, c, e);
    EndingStep(w, e);
    S.StepKeepsInv(w, e);
    FailureSets(g, failFast, s, v);
    var s' := E.Step(g, failFast, s, E.JobFailed(v, {}));
    forall x {:trigger Agrees(s', w', x)} | x in g ensures Agrees(s', w', x) {
      assert Agrees(s, w, x);
    }
  }

  lemma CancelKeepsTie(g: Graph, failFast: bool, w: S.World, s: E.Exec)
    requires Tied(g, w, s)
    ensures Tied(g, w, E.Step(g, failFast, s, E.Event.CancelDag))
  {
    var s' := E.Step(g, failFast, s, E.Event.CancelDag);
    E.StepKeepsCore(g, failFast, s, E.Event.CancelDag);
    forall x {:trigger Agrees(s', w, x)} | x in g ensures Agrees(s', w, x) {
      assert Agrees(s, w, x);
    }
  }

  /** Every step keeps scheduler and executor tied, and the executor is told of jobs only that it counts as running. */
  lemma StepKeepsTie(g: Graph, failFast: bool, specs: map<JobId, S.Job>, c: Combined, act: Act)
    requires Submittable(g, specs) && Tied(g, c.world, c.exec) && Enabled(g, c, act)
    ensures var c' := Step(g, failFast, specs, c, act); Tied(g, c'.world, c'.exec)
    ensures !act.Other? ==> E.WellFormed(c.exec, Told(c, act)) && E.NoneRejected([Told(c, act)])
  {
    match act
    case Other(e) => OtherKeepsTie(g, c.world, c.exec, e);
    case Finish(e, order) =>
      if e.Succeed? {
        CompletionKeepsTie(g, failFast, specs, c, e, order);
      } else {
        NothingListed(order);
        FailureKeepsTie(g, failFast, specs, c, e);
      }
    case CancelDag(order) =>
      CancelKeepsTie(g, failFast, c.world, c.exec);
      CancelAllKeepsTie(g, c.world, E.Step(g, failFast, c.exec, E.Event.CancelDag), order);
  }

  lemma NothingListed(order: seq<JobId>)
    ensures Lists(order, {}) ==> order == []
  {
    if order != [] {
      assert order[0] in Elements(order);
    }
  }

  lemma {:induction false} CancelAllCancels(w: S.World, order: seq<JobId>, v: JobId)
    requires v in w.core.jobs
    ensures v in CancelAll(w, order).core.jobs
    ensures var job := w.core.jobs[v];
            CancelAll(w, order).core.jobs[v] ==
            if v in order && S.Cancellable(job.state) then job.(state := Cancelled) else job
  {
    if order != [] {
      var n := |order| - 1;
      assert order == order[..n] + [order[n]];
      CancelAllCancels(w, order[..n], v);
    }
  }

  /**
   * Cancelling the DAG cancels in the scheduler exactly its jobs that are SCHEDULED there, queued or already handed
   * out; running and finished jobs and those of others stay as they are.
   */
  lemma CancelDagReachesStore(g: Graph, failFast: bool, specs: map<JobId, S.Job>, c: Combined, order: seq<JobId>,
                              v: JobId)
    requires Submittable(g, specs) && Tied(g, c.world, c.exec) && Enabled(g, c, CancelDag(order))
    requires v in c.world.core.jobs
    ensures var job, jobs := c.world.core.jobs[v], Step(g, failFast, specs, c, CancelDag(order)).world.core.jobs;
            v in jobs && jobs[v] == if v in g && job.state == Scheduled then job.(state := Cancelled) else job
  {
    CancelAllCancels(c.world, order, v);
    assert v in order <==> v in Elements(order);
    assert S.Placed(c.world, v);
    if v in g {
      assert Agrees(c.exec, c.world, v);
    }
  }

  // ---- combined runs

  /** The DAG is started on a scheduler that does not have its jobs yet; its roots are submitted in some order. */
  ghost function Started(g: Graph, specs: map<JobId, S.Job>, w: S.World, roots: seq<JobId>): Combined
    requires Submittable(g, specs) && Lists(roots, E.Roots(g))
  {
    assert forall v :: v in roots ==> v in Elements(roots);
    Combined(SubmitAll(specs, w, roots), E.Started(g, {}), [])
  }

  lemma StartedTied(g: Graph, specs: map<JobId, S.Job>, w: S.World, roots: seq<JobId>)
    requires Submittable(g, specs) && Lists(roots, E.Roots(g)) && S.SInv(w) && w.maxSize.None?
    requires forall v :: v in g ==> v !in w.core.jobs
    ensures var c := Started(g, specs, w, roots); Tied(g, c.world, c.exec)
  {
    E.StartedIsCore(g, {});
    assert forall v :: v in roots <==> v in Elements(roots);
    SubmitAllAdds(specs, w, roots);
    var s, w' := E.Started(g, {}), SubmitAll(specs, w, roots);
    assert s.running == E.Roots(g);
    forall x {:trigger Agrees(s, w', x)} | x in g ensures Agrees(s, w', x) {}
  }

  ghost predicate IsRun(g: Graph, failFast: bool, specs: map<JobId, S.Job>, c: Combined, acts: seq<Act>)
    requires Submittable(g, specs)
    decreases |acts|
  {
    acts == [] || (Enabled(g, c, acts[0]) && IsRun(g, failFast, specs, Step(g, failFast, specs, c, acts[0]), acts[1..]))
  }

  ghost function After(g: Graph, failFast: bool, specs: map<JobId, S.Job>, c: Combined, acts: seq<Act>): Combined
    requires Submittable(g, specs) && IsRun(g, failFast, specs, c, acts)
    decreases |acts|
  {
    if acts == [] then c else After(g, failFast, specs, Step(g, failFast, specs, c, acts[0]), acts[1..])
  }

  /** The executor's state is the one its own run leads to. */
  ghost predicate Follows(g: Graph, failFast: bool, c: Combined) {
    && E.IsRun(g, failFast, E.Started(g, {}), c.heard) && E.NoneRejected(c.heard)
    && c.exec == E.After(g, failFast, E.Started(g, {}), c.heard)
  }

  lemma HearingFollows(g: Graph, failFast: bool, s: E.Exec, heard: seq<E.Event>, e: E.Event)
    requires E.IsRun(g, failFast, E.Started(g, {}), heard) && s == E.After(g, failFast, E.Started(g, {}), heard)
    requires E.WellFormed(s, e)
    ensures E.IsRun(g, failFast, E.Started(g, {}), heard + [e])
    ensures E.After(g, failFast, E.Started(g, {}), heard + [e]) == E.Step(g, failFast, s, e)
  {
    var longer := heard + [e];
    assert longer[..|longer| - 1] == heard && longer[|longer| - 1] == e;
  }

  /**
   * In every combined run the executor hears of running jobs only: what it is told is a run of its own, so that all
   * that is proved of those runs holds, and its sets agree with the states in the store.
   */
  lemma {:induction false} CombinedRunIsExecutorRun(g: Graph, failFast: bool, specs: map<JobId, S.Job>, c: Combined,
                                                    acts: seq<Act>)
    requires Submittable(g, specs) && Tied(g, c.world, c.exec) && Follows(g, failFast, c)
    requires IsRun(g, failFast, specs, c, acts)
    ensures var c' := After(g, failFast, specs, c, acts);
            Tied(g, c'.world, c'.exec) && Follows(g, failFast, c')
    decreases |acts|
  {
    if acts != [] {
      StepKeepsTie(g, failFast, specs, c, acts[0]);
      if !acts[0].Other? {
        HearingFollows(g, failFast, c.exec, c.heard, Told(c, acts[0]));
      }
      CombinedRunIsExecutorRun(g, failFast, specs, Step(g, failFast, specs, c, acts[0]), acts[1..]);
    }
  }

  /**
   * Started on a scheduler that does not know its jobs, an acyclic DAG that is never cancelled as a whole is
   * COMPLETED exactly when the scheduler has completed all its jobs, and FAILED exactly when one of them has failed
   * there and fail-fast is on or no other is still running. While it is RUNNING a job is.
   */
  lemma DagStatusTellsJobStates(g: Graph, failFast: bool, specs: map<JobId, S.Job>, w: S.World, roots: seq<JobId>,
                                acts: seq<Act>)
    requires Submittable(g, specs) && Lists(roots, E.Roots(g)) && roots != [] && !Cyclic(g)
    requires S.SInv(w) && w.maxSize.None?
    requires forall v :: v in g ==> v !in w.core.jobs
    requires IsRun(g, failFast, specs, Started(g, specs, w, roots), acts)
    requires E.NoCancel(After(g, failFast, specs, Started(g, specs, w, roots), acts).heard)
    ensures var c := After(g, failFast, specs, Started(g, specs, w, roots), acts); var jobs := c.world.core.jobs;
            && (c.exec.status == E.DagStatus.Completed <==>
                  forall v :: v in g ==> v in jobs && jobs[v].state == Completed)
            && (c.exec.status == E.DagStatus.Failed <==>
                  && (exists v :: v in g && v in jobs && jobs[v].state == JobState.Failed)
                  && (failFast || c.exec.running == {}))
            && (c.exec.status == E.DagStatus.Running ==> c.exec.running != {})
  {
    var c0 := Started(g, specs, w, roots);
    StartedTied(g, specs, w, roots);
    CombinedRunIsExecutorRun(g, failFast, specs, c0, acts);
    var c := After(g, failFast, specs, c0, acts);
    RootsRun(g, roots);
    E.CompletedMeansAllCompleted(g, failFast, {}, c.heard);
    E.RunUncancelled(g, failFast, {}, c.heard);
    if failFast {
      E.FailFastFails(g, c.heard);
    }
    StatesTell(g, c.world, c.exec);
  }

  lemma RootsRun(g: Graph, roots: seq<JobId>)
    requires Lists(roots, E.Roots(g)) && roots != []
    ensures E.Started(g, {}).running != {}
  {
    assert roots[0] in Elements(roots);
    assert roots[0] in E.Started(g, {}).running;
  }

  lemma StatesTell(g: Graph, w: S.World, s: E.Exec)
    requires Tied(g, w, s)
    ensures s.completed == g.Keys <==> forall v :: v in g ==> v in w.core.jobs && w.core.jobs[v].state == Completed
    ensures s.failed != {} <==> exists v :: v in g && v in w.core.jobs && w.core.jobs[v].state == JobState.Failed
  {
    forall v | v in g ensures v in s.completed <==> v in w.core.jobs && w.core.jobs[v].state == Completed {
      assert Agrees(s, w, v);
    }
    forall v | v in g ensures v in s.failed <==> v in w.core.jobs && w.core.jobs[v].state == JobState.Failed {
      assert Agrees(s, w, v);
    }
    if s.failed != {} {
      var v :| v in s.failed;
      assert v in g;
    }
  }

  // ---- progress

  ghost predicate NotCancelled(acts: seq<Act>) {
    forall i :: 0 <= i < |acts| ==> !acts[i].CancelDag?
  }

  /** Some continuation that does not cancel the DAG as a whole changes the execution. */
  ghost predicate CanGoOn(g: Graph, failFast: bool, specs: map<JobId, S.Job>, c: Combined)
    requires Submittable(g, specs)
  {
    exists acts :: IsRun(g, failFast, specs, c, acts) && NotCancelled(acts)
                   && After(g, failFast, specs, c, acts).exec != c.exec
  }

  /** `cancel_job` has cancelled every job the executor waits for. */
  ghost predicate AllCancelled(c: Combined) {
    forall v :: v in c.exec.running ==> v in c.world.core.jobs && c.world.core.jobs[v].state == Cancelled
  }

  /** The job is in the queue or with a worker. */
  ghost predicate WithScheduler(w: S.World, v: JobId) {
    Live(w.core.queue, v) || w.handed[v] > 0 || w.executing[v] > 0
  }

  lemma CancelledStays(w: S.World, e: S.Event, v: JobId)
    requires S.SInv(w) && S.WellFormed(w, e) && v in w.core.jobs && w.core.jobs[v].state == Cancelled
    ensures v in S.Step(w, e).core.jobs && S.Step(w, e).core.jobs[v].state == Cancelled
  {
    if !e.GetNext? {
      if e.id != v {
        S.StepLeavesOthers(w, e, v);
      } else {
        OwnStepKeepsCancelled(w, e);
      }
    }
  }

  lemma OwnStepKeepsCancelled(w: S.World, e: S.Event)
    requires S.SInv(w) && S.WellFormed(w, e) && !e.GetNext?
    requires e.id in w.core.jobs && w.core.jobs[e.id].state == Cancelled
    ensures e.id in S.Step(w, e).core.jobs && S.Step(w, e).core.jobs[e.id].state == Cancelled
  {
    assert S.Placed(w, e.id);
  }

  lemma StepStaysStalled(g: Graph, failFast: bool, specs: map<JobId, S.Job>, c: Combined, act: Act)
    requires Submittable(g, specs) && Tied(g, c.world, c.exec) && AllCancelled(c)
    requires Enabled(g, c, act) && !act.CancelDag?
    ensures var c' := Step(g, failFast, specs, c, act); AllCancelled(c') && c'.exec == c.exec
  {
    if act.Finish? {
      EndedWasRunning(g, c, act.e);
      assert false;
    } else {
      forall v | v in c.exec.running
        ensures v in S.Step(c.world, act.e).core.jobs && S.Step(c.world, act.e).core.jobs[v].state == Cancelled
      {
        CancelledStays(c.world, act.e, v);
      }
    }
  }

  lemma {:induction false} StaysStalled(g: Graph, failFast: bool, specs: map<JobId, S.Job>, c: Combined,
                                        acts: seq<Act>)
    requires Submittable(g, specs) && Tied(g, c.world, c.exec) && AllCancelled(c)
    requires IsRun(g, failFast, specs, c, acts) && NotCancelled(acts)
    ensures After(g, failFast, specs, c, acts).exec == c.exec
    decreases |acts|
  {
    if acts != [] {
      StepStaysStalled(g, failFast, specs, c, acts[0]);
      StepKeepsTie(g, failFast, specs, c, acts[0]);
      StaysStalled(g, failFast, specs, Step(g, failFast, specs, c, acts[0]), acts[1..]);
    }
  }

  lemma {:induction false} SomeOrder(jobs: set<JobId>) returns (order: seq<JobId>)
    ensures Lists(order, jobs)
    decreases jobs
  {
    order := [];
    if jobs != {} {
      var v :| v in jobs;
      var before := SomeOrder(jobs - {v});
      assert v !in before by {
        assert v !in Elements(before);
      }
      order := before + [v];
      assert Elements(order) == Elements(before) + {v};
    }
  }

  /** A job that is executed can end, which the executor then hears of. */
  lemma ExecutedGoesOn(g: Graph, failFast: bool, specs: map<JobId, S.Job>, c: Combined, v: JobId)
    requires Submittable(g, specs) && Tied(g, c.world, c.exec) && v in c.exec.running
    requires v in c.world.core.jobs && c.world.core.jobs[v].state == Running
    ensures CanGoOn(g, failFast, specs, c)
  {
    assert Agrees(c.exec, c.world, v) && S.Placed(c.world, v);
    var order := SomeOrder(E.NewlyReady(g, c.exec, v));
    var act := Finish(S.Succeed(v), order);
    CompletionKeepsTie(g, failFast, specs, c, S.Succeed(v), order);
    CompletionSets(g, failFast, c.exec, v);
    assert v !in E.NewlyReady(g, c.exec, v);
    var c' := Step(g, failFast, specs, c, act);
    assert v !in c'.exec.running;
    assert IsRun(g, failFast, specs, c', []) && After(g, failFast, specs, c', []) == c';
    assert [act][1..] == [];
    assert IsRun(g, failFast, specs, c, [act]) && After(g, failFast, specs, c, [act]) == c';
  }

  lemma GoesOnLater(g: Graph, failFast: bool, specs: map<JobId, S.Job>, c: Combined, act: Act)
    requires Submittable(g, specs) && Enabled(g, c, act) && act.Other?
    requires CanGoOn(g, failFast, specs, Step(g, failFast, specs, c, act))
    ensures CanGoOn(g, failFast, specs, c)
  {
    var c' := Step(g, failFast, specs, c, act);
    var acts :| IsRun(g, failFast, specs, c', acts) && NotCancelled(acts)
                && After(g, failFast, specs, c', acts).exec != c'.exec;
    var longer := [act] + acts;
    assert longer[1..] == acts;
    assert IsRun(g, failFast, specs, c, longer);
  }

  /** How far a running job that is not cancelled is from being executed. */
  ghost function Distance(w: S.World, v: JobId): nat
    requires v in w.core.jobs
  {
    if w.core.jobs[v].state == Running then 0 else if w.handed[v] > 0 then 1 else 2 + |w.core.queue.items|
  }

  /** What brings such a job closer to being executed. */
  ghost function Nearer(w: S.World, v: JobId): S.Event
    requires v in w.core.jobs
  {
    if w.handed[v] > 0 || v !in w.core.queue.entries then S.Begin(v)
    else S.GetNext(w.core.queue.entries[v].scheduledTime)
  }

  lemma GetsNearer(w: S.World, v: JobId)
    requires S.SInv(w) && w.maxSize.None? && v in w.core.jobs && w.core.jobs[v].state == Scheduled
    ensures var e := Nearer(w, v); var w' := S.Step(w, e);
            && S.WellFormed(w, e) && !e.Submit? && !Ends(w, e)
            && v in w'.core.jobs && w'.core.jobs[v].state in {Scheduled, Running}
            && Distance(w', v) < Distance(w, v)
  {
    assert S.Placed(w, v);
    var q := w.core.queue;
    if w.handed[v] == 0 {
      var now := q.entries[v].scheduledTime;
      S.PopIndex(q, now);
      PopsSome(q, v);
      ScanShrinks(q, now);
    }
  }

  lemma PopsSome(q: QueueState, v: JobId)
    requires Inv(q) && Clean(q) && Live(q, v)
    ensures Scan(q, q.entries[v].scheduledTime).ready.Some?
  {
    var now := q.entries[v].scheduledTime;
    IterationIsSortedIndex(q);
    ScanTakesFirstDue(q, now);
    SomeDueIff(Iteration(q), now);
    assert q.entries[v] in Iteration(q);
  }

  /** A running job that is not cancelled can be handed out, begun and completed. */
  lemma {:induction false} RunningGoesOn(g: Graph, failFast: bool, specs: map<JobId, S.Job>, c: Combined, v: JobId)
    requires Submittable(g, specs) && Tied(g, c.world, c.exec) && v in c.exec.running
    requires v in c.world.core.jobs && c.world.core.jobs[v].state in {Scheduled, Running}
    ensures CanGoOn(g, failFast, specs, c)
    decreases Distance(c.world, v)
  {
    if c.world.core.jobs[v].state == Running {
      ExecutedGoesOn(g, failFast, specs, c, v);
    } else {
      var act := Other(Nearer(c.world, v));
      GetsNearer(c.world, v);
      StepKeepsTie(g, failFast, specs, c, act);
      RunningGoesOn(g, failFast, specs, Step(g, failFast, specs, c, act), v);
      GoesOnLater(g, failFast, specs, c, act);
    }
  }

  /**
   * A DAG can go on without being cancelled as a whole exactly when one of its running jobs has not been cancelled in
   * the scheduler, which never tells the executor. Such a job is in the queue or with a worker.
   */
  lemma GoesOnIff(g: Graph, failFast: bool, specs: map<JobId, S.Job>, c: Combined)
    requires Submittable(g, specs) && Tied(g, c.world, c.exec)
    ensures CanGoOn(g, failFast, specs, c) <==> !AllCancelled(c)
    ensures !AllCancelled(c) ==> exists v :: v in c.exec.running && WithScheduler(c.world, v)
  {
    if AllCancelled(c) {
      forall acts | IsRun(g, failFast, specs, c, acts) && NotCancelled(acts)
        ensures After(g, failFast, specs, c, acts).exec == c.exec
      {
        StaysStalled(g, failFast, specs, c, acts);
      }
    } else {
      var v :| v in c.exec.running && !(v in c.world.core.jobs && c.world.core.jobs[v].state == Cancelled);
      assert Agrees(c.exec, c.world, v) && S.Placed(c.world, v);
      RunningGoesOn(g, failFast, specs, c, v);
    }
  }

  /** When the only running job is cancelled while it is in the queue, the execution stays as it is for good. */
  lemma CancelledJobStalls(g: Graph, failFast: bool, specs: map<JobId, S.Job>, c: Combined, v: JobId)
    requires Submittable(g, specs) && Tied(g, c.world, c.exec)
    requires c.exec.running == {v} && Live(c.world.core.queue, v)
    ensures Enabled(g, c, Other(S.Cancel(v)))
    ensures var c' := Step(g, failFast, specs, c, Other(S.Cancel(v)));
            c'.exec == c.exec && !CanGoOn(g, failFast, specs, c')
  {
    var act := Other(S.Cancel(v));
    assert Agrees(c.exec, c.world, v) && S.Placed(c.world, v);
    S.CancelFromQueueTakesAway(c.world, v);
    StepKeepsTie(g, failFast, specs, c, act);
    GoesOnIff(g, failFast, specs, Step(g, failFast, specs, c, act));
  }

  /** A DAG of one job is in that situation as soon as it is started: it is RUNNING, with its job queued. */
  lemma StartedAlone(v: JobId, spec: S.Job, w: S.World)
    requires S.Fresh(spec) && S.SInv(w) && w.maxSize.None? && v !in w.core.jobs
    ensures var g: Graph, specs := map[v := {}], map[v := spec];
            && Submittable(g, specs) && Lists([v], E.Roots(g))
            && var c := Started(g, specs, w, [v]);
               && Tied(g, c.world, c.exec) && c.exec.status == E.DagStatus.Running
               && c.exec.running == {v} && Live(c.world.core.queue, v)
  {
    var g: Graph, specs := map[v := {}], map[v := spec];
    assert Elements([v]) == {v} == E.Roots(g);
    StartedTied(g, specs, w, [v]);
    assert S.Placed(w, v);
    OneSubmitted(specs, w, v);
  }

  lemma OneSubmitted(specs: map<JobId, S.Job>, w: S.World, v: JobId)
    requires S.SInv(w) && w.maxSize.None? && v in specs && S.Fresh(specs[v]) && v !in w.core.jobs
    ensures Live(SubmitAll(specs, w, [v]).core.queue, v)
  {
    assert [v][..0] == [];
    assert SubmitAll(specs, w, [v][..0]) == w;
    OneSubmission(w, v, specs[v]);
  }
}
