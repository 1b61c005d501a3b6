/** Kahn's algorithm, the `topological_sort` of `core/dag.py`. */
module TopologicalSorting {
  import opened Collections
  import opened Graphs

  datatype SortResult = Sorted(jobs: seq<JobId>) | SortCyclicDependency(remaining: set<JobId>)

  /** `v` lies on a cycle or downstream of one. */
  ghost predicate BehindCycle(g: Graph, v: JobId) {
    exists c :: OnCycle(g, c) && Reaches(g, c, v)
  }

  /** The in-degree of a job counts its dependencies outside `done`; the jobs of `rest` still count one more. */
  ghost predicate Degrees(g: Graph, inDegree: map<JobId, int>, done: set<JobId>, rest: set<JobId>) {
    && inDegree.Keys == g.Keys
    && (forall v {:trigger inDegree[v]} :: v in g ==> inDegree[v] == |g[v] - done| + (if v in rest then 1 else 0))
  }

  /** The queue lists, once each, the jobs outside `done` whose in-degree has dropped to zero. */
  ghost predicate Frontier(g: Graph, inDegree: map<JobId, int>, queue: seq<JobId>, done: set<JobId>) {
    && inDegree.Keys == g.Keys
    && Distinct(queue)
    && (forall v :: v in queue <==> v in g && v !in done && inDegree[v] == 0)
  }

  ghost predicate Processed(g: Graph, result: seq<JobId>) {
    Distinct(result) && Elements(result) <= g.Keys && DependenciesFirst(g, result)
  }

  /** The loop invariant of Kahn's algorithm. */
  ghost predicate Kahn(g: Graph, inDegree: map<JobId, int>, queue: seq<JobId>, result: seq<JobId>) {
    && Processed(g, result)
    && Degrees(g, inDegree, Elements(result), {})
    && Frontier(g, inDegree, queue, Elements(result))
  }

  lemma StartDegrees(g: Graph, inDegree: map<JobId, int>)
    requires inDegree.Keys == g.Keys && (forall v :: v in g ==> inDegree[v] == |g[v]|)
    ensures Degrees(g, inDegree, {}, {})
  {
    forall v | v in g ensures inDegree[v] == |g[v] - {}| {
      assert g[v] - {} == g[v];
    }
  }

  lemma KahnStart(g: Graph, inDegree: map<JobId, int>, queue: seq<JobId>)
    requires inDegree.Keys == g.Keys && (forall v :: v in g ==> inDegree[v] == |g[v]|)
    requires Distinct(queue) && forall v :: v in queue <==> v in g && inDegree[v] == 0
    ensures Kahn(g, inDegree, queue, [])
  {
    StartDegrees(g, inDegree);
    assert Elements<JobId>([]) == {};
  }

  lemma PopDegrees(g: Graph, inDegree: map<JobId, int>, done: set<JobId>, job: JobId)
    requires Degrees(g, inDegree, done, {}) && job !in done
    ensures Degrees(g, inDegree, done + {job}, Dependents(g, job))
  {
    var rest := Dependents(g, job);
    forall v | v in g ensures inDegree[v] == |g[v] - (done + {job})| + (if v in rest then 1 else 0) {
      assert g[v] - (done + {job}) == (g[v] - done) - {job};
      if v in rest {
        DropOne(g[v] - done, job);
      } else {
        assert (g[v] - done) - {job} == g[v] - done;
      }
    }
  }

  lemma PopProcessed(g: Graph, result: seq<JobId>, job: JobId)
    requires Processed(g, result) && job in g && job !in Elements(result) && g[job] <= Elements(result)
    ensures Processed(g, result + [job]) && Elements(result + [job]) == Elements(result) + {job}
  {
    var now := result + [job];
    forall i | 0 <= i < |now| ensures now[i] in g && g[now[i]] <= Elements(now[..i]) {
      if i < |result| {
        assert now[..i] == result[..i];
      } else {
        assert now[..i] == result;
      }
    }
  }

  lemma PopFrontier(g: Graph, inDegree: map<JobId, int>, queue: seq<JobId>, done: set<JobId>)
    requires Frontier(g, inDegree, queue, done) && queue != []
    ensures queue[0] in g && queue[0] !in done && inDegree[queue[0]] == 0
    ensures Frontier(g, inDegree, queue[1..], done + {queue[0]})
  {
    var job := queue[0];
    assert job in Elements(queue);
    assert Elements(queue[1..]) == Elements(queue) - {job} by {
      assert queue == [job] + queue[1..];
      assert job !in queue[1..];
    }
  }

  lemma RelaxFrontier(g: Graph, inDegree: map<JobId, int>, queue: seq<JobId>, done: set<JobId>, d: JobId)
    requires Frontier(g, inDegree, queue, done) && d in g && d !in done && inDegree[d] > 0
    ensures var after := inDegree[d := inDegree[d] - 1];
            Frontier(g, after, if after[d] == 0 then queue + [d] else queue, done)
  {
    assert d !in Elements(queue);
    assert Elements(queue + [d]) == Elements(queue) + {d};
  }

  lemma RelaxDegrees(g: Graph, inDegree: map<JobId, int>, done: set<JobId>, rest: set<JobId>, d: JobId)
    requires Degrees(g, inDegree, done, rest) && d in rest && d in g
    ensures inDegree[d] > 0
    ensures Degrees(g, inDegree[d := inDegree[d] - 1], done, rest - {d})
  {}

  /** A dependent of an unprocessed job is itself unprocessed. */
  lemma DependentUnprocessed(g: Graph, result: seq<JobId>, job: JobId, d: JobId)
    requires Processed(g, result) && job !in Elements(result) && Edge(g, job, d)
    requires job in g && g[job] <= Elements(result)
    ensures d !in Elements(result) && d != job
  {
    if d in result {
      PrefixHasDependencies(g, result, d);
    }
  }

  /** The state of the inner loop: `job` has been processed after `before`, but `rest` still counts it. */
  ghost predicate Relaxing(g: Graph, inDegree: map<JobId, int>, queue: seq<JobId>, before: seq<JobId>,
                           job: JobId, rest: set<JobId>)
  {
    && Processed(g, before) && job in g && job !in Elements(before) && g[job] <= Elements(before)
    && rest <= Dependents(g, job)
    && Degrees(g, inDegree, Elements(before) + {job}, rest)
    && Frontier(g, inDegree, queue, Elements(before) + {job})
  }

  lemma PopStep(g: Graph, inDegree: map<JobId, int>, queue: seq<JobId>, result: seq<JobId>)
    requires Kahn(g, inDegree, queue, result) && queue != []
    ensures queue[0] in g && Relaxing(g, inDegree, queue[1..], result, queue[0], Dependents(g, queue[0]))
  {
    var done := Elements(result);
    PopFrontier(g, inDegree, queue, done);
    assert g[queue[0]] - done == {};
    PopDegrees(g, inDegree, done, queue[0]);
  }

  lemma RelaxStep(g: Graph, inDegree: map<JobId, int>, queue: seq<JobId>, before: seq<JobId>,
                  job: JobId, rest: set<JobId>, d: JobId)
    requires Relaxing(g, inDegree, queue, before, job, rest) && d in rest
    ensures d in inDegree
    ensures var after := inDegree[d := inDegree[d] - 1];
            Relaxing(g, after, if after[d] == 0 then queue + [d] else queue, before, job, rest - {d})
  {
    assert d in Dependents(g, job);
    DependentUnprocessed(g, before, job, d);
    RelaxDegrees(g, inDegree, Elements(before) + {job}, rest, d);
    RelaxFrontier(g, inDegree, queue, Elements(before) + {job}, d);
  }

  lemma RelaxEnd(g: Graph, inDegree: map<JobId, int>, queue: seq<JobId>, before: seq<JobId>, job: JobId)
    requires Relaxing(g, inDegree, queue, before, job, {})
    ensures Kahn(g, inDegree, queue, before + [job])
    ensures |before| < |before + [job]| <= |g|
  {
    PopProcessed(g, before, job);
    DistinctWithin(before + [job], g.Keys);
  }

  lemma LeftoverIsStuck(g: Graph, inDegree: map<JobId, int>, result: seq<JobId>)
    requires Closed(g) && Kahn(g, inDegree, [], result)
    ensures Stuck(g, g.Keys - Elements(result))
    ensures forall v :: v in g ==> (inDegree[v] > 0 <==> v !in Elements(result))
  {
    var stuck := g.Keys - Elements(result);
    forall v | v in g ensures v in stuck ==> inDegree[v] > 0 && Blocked(g, stuck, v) {
      if v in stuck {
        assert inDegree[v] != 0 by { assert v !in []; }
        assert g[v] - Elements(result) != {};
        var d :| d in g[v] - Elements(result);
        assert Edge(g, d, v);
      }
    }
    forall v | v in Elements(result) ensures inDegree[v] == 0 {
      PrefixHasDependencies(g, result, v);
      assert g[v] - Elements(result) == {};
    }
  }

  /** When the queue runs dry, the sort is complete exactly when there is no cycle. */
  lemma KahnEnd(g: Graph, inDegree: map<JobId, int>, result: seq<JobId>)
    requires Closed(g) && Kahn(g, inDegree, [], result)
    ensures |result| == |g| ==> TopologicalOrder(g, result) && !Cyclic(g)
    ensures |result| != |g| ==> Cyclic(g)
  {
    DistinctWithin(result, g.Keys);
    if |result| == |g| {
      TopologicalOrderIsAcyclic(g, result);
    } else {
      LeftoverIsStuck(g, inDegree, result);
      DistinctCardinality(result);
      var stuck := g.Keys - Elements(result);
      SomethingLeftOut(result, g.Keys);
      var w :| w in stuck;
      StuckIsCyclic(g, stuck, w);
    }
  }

  /** The jobs left over are exactly those on or behind a cycle. */
  lemma KahnLeftover(g: Graph, inDegree: map<JobId, int>, result: seq<JobId>, v: JobId)
    requires Closed(g) && Kahn(g, inDegree, [], result) && v in g
    ensures inDegree[v] > 0 <==> BehindCycle(g, v)
  {
    LeftoverIsStuck(g, inDegree, result);
    if v in Elements(result) {
      ProcessedNotBehindCycle(g, result, v);
    } else {
      StuckIsCyclic(g, g.Keys - Elements(result), v);
    }
  }

  lemma ProcessedNotBehindCycle(g: Graph, result: seq<JobId>, v: JobId)
    requires Processed(g, result) && v in Elements(result)
    ensures !BehindCycle(g, v)
  {
    forall c | OnCycle(g, c) ensures !Reaches(g, c, v) {
      PrefixNotBehindCycle(g, result, c, v);
    }
  }

  lemma PrefixHasDependencies(g: Graph, s: seq<JobId>, v: JobId)
    requires DependenciesFirst(g, s) && v in s
    ensures v in g && g[v] <= Elements(s)
  {
    var i :| 0 <= i < |s| && s[i] == v;
    assert g[s[i]] <= Elements(s[..i]);
  }

  lemma KahnLeftovers(g: Graph, inDegree: map<JobId, int>, result: seq<JobId>)
    requires Closed(g) && Kahn(g, inDegree, [], result)
    ensures forall v :: v in g && inDegree[v] > 0 <==> v in g && BehindCycle(g, v)
  {
    forall v | v in g ensures inDegree[v] > 0 <==> BehindCycle(g, v) {
      KahnLeftover(g, inDegree, result, v);
    }
  }

  /** One turn of the outer loop: takes the next job off the queue and relaxes its dependents. */
  method ProcessNext(g: Graph, down: Graph, before: map<JobId, int>, queueBefore: seq<JobId>, ghost result: seq<JobId>)
    returns (job: JobId, inDegree: map<JobId, int>, queue: seq<JobId>)
    requires IsAdjacency(g, down) && Kahn(g, before, queueBefore, result) && queueBefore != []
    ensures Kahn(g, inDegree, queue, result + [job])
    ensures |result| < |result + [job]| <= |g|
  {
    PopStep(g, before, queueBefore, result);
    job, inDegree, queue := queueBefore[0], before, queueBefore[1..];
    var rest := down[job];
    while rest != {}
      invariant Relaxing(g, inDegree, queue, result, job, rest)
      decreases rest
    {
      var dependent :| dependent in rest;
      RelaxStep(g, inDegree, queue, result, job, rest, dependent);
      inDegree := inDegree[dependent := inDegree[dependent] - 1];
      queue := if inDegree[dependent] == 0 then queue + [dependent] else queue;
      rest := rest - {dependent};
    }
    RelaxEnd(g, inDegree, queue, result, job);
  }

  /** Kahn's algorithm, on the two adjacency maps. */
  method KahnSort(g: Graph, down: Graph) returns (r: SortResult)
    requires IsAdjacency(g, down)
    ensures r.Sorted? <==> !Cyclic(g)
    ensures r.Sorted? ==> TopologicalOrder(g, r.jobs)
    ensures r.SortCyclicDependency? ==> forall v :: v in r.remaining <==> v in g && BehindCycle(g, v)
  {
    var inDegree: map<JobId, int> := map v | v in g :: |g[v]|;
    var queue := Enumerate(set v | v in g && inDegree[v] == 0);
    var result: seq<JobId> := [];
    assert forall v :: v in queue <==> v in Elements(queue);
    KahnStart(g, inDegree, queue);
    while queue != []
      invariant Kahn(g, inDegree, queue, result)
      decreases |g| - |result|
    {
      var job;
      job, inDegree, queue := ProcessNext(g, down, inDegree, queue, result);
      result := result + [job];
    }
    KahnEnd(g, inDegree, result);
    if |result| != |g| {
      KahnLeftovers(g, inDegree, result);
      return SortCyclicDependency(set v | v in g && inDegree[v] > 0);
    }
    return Sorted(result);
  }
}
