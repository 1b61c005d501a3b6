/** The level-by-level schedule of `core/dag.py`: `get_execution_plan`. */
module ExecutionPlans {
  import opened Collections
  import opened Graphs

  // The jobs of a level are listed by iterating over a set, so their order is arbitrary and a level is a set here.
  datatype PlanResult = Plan(levels: seq<set<JobId>>) | PlanCyclicDependency

  ghost predicate EndsIn(g: Graph, p: seq<JobId>, v: JobId) {
    p != [] && IsChain(g, p) && p[|p| - 1] == v
  }

  /** The longest dependency chain that ends in `v` has `n` jobs. */
  ghost predicate LongestChain(g: Graph, v: JobId, n: int) {
    && (exists p :: EndsIn(g, p, v) && |p| == n)
    && (forall p :: EndsIn(g, p, v) ==> |p| <= n)
  }

  ghost predicate InLevel(levels: seq<set<JobId>>, k: int, v: JobId) {
    0 <= k < |levels| && v in levels[k]
  }

  /** What an execution plan promises: level `k` is the set of jobs whose longest dependency chain has `k + 1` jobs. */
  ghost predicate IsPlan(g: Graph, levels: seq<set<JobId>>) {
    && (forall k :: 0 <= k < |levels| ==> levels[k] != {})
    && (forall k, v :: InLevel(levels, k, v) ==> v in g && LongestChain(g, v, k + 1))
    && (forall v {:trigger Placed(levels, v)} :: v in g ==> Placed(levels, v))
  }

  ghost predicate Placed(levels: seq<set<JobId>>, v: JobId) {
    exists k :: InLevel(levels, k, v)
  }

  // ---- what follows from IsPlan

  lemma LongestChainUnique(g: Graph, v: JobId, m: int, n: int)
    requires LongestChain(g, v, m) && LongestChain(g, v, n)
    ensures m == n
  {
    var p :| EndsIn(g, p, v) && |p| == m;
    var q :| EndsIn(g, q, v) && |q| == n;
  }

  lemma LongerThanDependency(g: Graph, u: JobId, v: JobId, m: int, n: int)
    requires Edge(g, u, v) && LongestChain(g, u, m) && LongestChain(g, v, n)
    ensures m < n
  {
    var p :| EndsIn(g, p, u) && |p| == m;
    ChainConcat(g, p, [v]);
    assert EndsIn(g, p + [v], v);
  }

  /** In a plan every dependency sits at a strictly earlier level: no level has an internal edge. */
  lemma PlanDependenciesEarlier(g: Graph, levels: seq<set<JobId>>, k: nat, u: JobId, v: JobId) returns (j: nat)
    requires IsPlan(g, levels) && Closed(g) && InLevel(levels, k, v) && Edge(g, u, v)
    ensures j < k && InLevel(levels, j, u) && !InLevel(levels, k, u)
  {
    assert Placed(levels, u);
    j :| InLevel(levels, j, u);
    LongerThanDependency(g, u, v, j + 1, k + 1);
    if InLevel(levels, k, u) {
      LongestChainUnique(g, u, j + 1, k + 1);
    }
  }

  /** The jobs are listed level after level. */
  ghost predicate LevelsAscend(levels: seq<set<JobId>>, s: seq<JobId>) {
    forall i, j, m, n :: 0 <= i < j < |s| && InLevel(levels, m, s[i]) && InLevel(levels, n, s[j]) ==> m <= n
  }

  /** A plan, flattened level after level in any order within the levels, is a topological order. */
  lemma PlanFlattensToTopologicalOrder(g: Graph, levels: seq<set<JobId>>, s: seq<JobId>)
    requires IsPlan(g, levels) && Closed(g)
    requires Distinct(s) && Elements(s) == g.Keys && LevelsAscend(levels, s)
    ensures TopologicalOrder(g, s)
  {
    forall i | 0 <= i < |s| ensures s[i] in g && g[s[i]] <= Elements(s[..i]) {
      assert s[i] in Elements(s);
      assert Placed(levels, s[i]);
      var n :| InLevel(levels, n, s[i]);
      forall u | u in g[s[i]] ensures u in Elements(s[..i]) {
        var m := PlanDependenciesEarlier(g, levels, n, u, s[i]);
        assert u in Elements(s);
        var j :| 0 <= j < |s| && s[j] == u;
        assert j < i;
        assert s[..i][j] == u;
      }
    }
  }

  /** No staging of the jobs that respects the edges starts a job earlier, or needs fewer stages. */
  lemma PlanIsMinimal(g: Graph, levels: seq<set<JobId>>, stage: map<JobId, int>, stages: nat)
    requires IsPlan(g, levels) && Ranked(g, stage)
    requires forall v :: v in g ==> 0 <= stage[v] < stages
    ensures forall k, v :: InLevel(levels, k, v) ==> v in g && k <= stage[v]
    ensures |levels| <= stages
  {
    forall k, v | InLevel(levels, k, v) ensures v in g && k <= stage[v] {
      var p :| EndsIn(g, p, v) && |p| == k + 1;
      ChainRank(g, stage, p);
    }
    if levels != [] {
      var last := |levels| - 1;
      assert levels[last] != {};
      var v :| v in levels[last];
      assert InLevel(levels, last, v);
    }
  }

  // ---- the levels found so far, as a numbering of the jobs

  ghost predicate DependsOnRank(g: Graph, rank: map<JobId, int>, v: JobId, r: int) {
    exists u :: Edge(g, u, v) && u in rank && rank[u] == r
  }

  ghost predicate DependsBelow(g: Graph, rank: map<JobId, int>, v: JobId) {
    v in rank && DependsOnRank(g, rank, v, rank[v] - 1)
  }

  /** Ranks grow along edges, and a job of positive rank depends on one of the rank just below. */
  ghost predicate Tight(g: Graph, rank: map<JobId, int>) {
    && rank.Keys <= g.Keys
    && (forall u, v :: Edge(g, u, v) && v in rank ==> u in rank && rank[u] < rank[v])
    && (forall v :: v in rank ==> rank[v] >= 0)
    && (forall v {:trigger DependsBelow(g, rank, v)} :: v in rank && rank[v] > 0 ==> DependsBelow(g, rank, v))
  }

  lemma {:induction false} TightChain(g: Graph, rank: map<JobId, int>, v: JobId) returns (p: seq<JobId>)
    requires Tight(g, rank) && v in rank
    ensures EndsIn(g, p, v) && |p| == rank[v] + 1
    decreases rank[v]
  {
    if rank[v] == 0 {
      p := [v];
    } else {
      assert DependsBelow(g, rank, v);
      var u :| Edge(g, u, v) && u in rank && rank[u] == rank[v] - 1;
      p := TightChain(g, rank, u);
      ChainConcat(g, p, [v]);
      p := p + [v];
    }
  }

  lemma TightIsLongest(g: Graph, rank: map<JobId, int>, v: JobId)
    requires Tight(g, rank) && rank.Keys == g.Keys && v in g
    ensures LongestChain(g, v, rank[v] + 1)
  {
    var q := TightChain(g, rank, v);
    forall p | EndsIn(g, p, v) ensures |p| <= rank[v] + 1 {
      ChainRank(g, rank, p);
      assert p[0] in g;
    }
  }

  ghost predicate ListsRanks(levels: seq<set<JobId>>, rank: map<JobId, int>) {
    && (forall k :: 0 <= k < |levels| ==> levels[k] != {})
    && (forall k, v :: InLevel(levels, k, v) ==> v in rank && rank[v] == k)
    && (forall v :: v in rank ==> InLevel(levels, rank[v], v))
  }

  lemma TightIsPlan(g: Graph, levels: seq<set<JobId>>, rank: map<JobId, int>)
    requires Tight(g, rank) && rank.Keys == g.Keys && ListsRanks(levels, rank)
    ensures IsPlan(g, levels) && !Cyclic(g)
  {
    forall k, v | InLevel(levels, k, v) ensures v in g && LongestChain(g, v, k + 1) {
      TightIsLongest(g, rank, v);
    }
    forall v | v in g ensures Placed(levels, v) {
      assert InLevel(levels, rank[v], v);
    }
    RankedIsAcyclic(g, rank);
  }

  /** The jobs planned so far are ranked; each remaining one still waits for the last rank or for a remaining job. */
  ghost predicate Planning(g: Graph, rank: map<JobId, int>, remaining: set<JobId>, n: nat) {
    && Tight(g, rank)
    && rank.Keys == g.Keys - remaining && remaining <= g.Keys
    && (forall v :: v in rank ==> rank[v] < n)
    && (n > 0 ==> forall v {:trigger Waits(g, rank, remaining, v, n - 1)} ::
          v in remaining ==> Waits(g, rank, remaining, v, n - 1))
  }

  ghost predicate Waits(g: Graph, rank: map<JobId, int>, remaining: set<JobId>, v: JobId, r: int) {
    DependsOnRank(g, rank, v, r) || Blocked(g, remaining, v)
  }

  /** The next level: the remaining jobs that depend on no remaining job. */
  ghost predicate IsFreeLevel(g: Graph, remaining: set<JobId>, level: set<JobId>) {
    level != {} && forall v :: v in level <==> v in remaining && !Blocked(g, remaining, v)
  }

  ghost function Promote(rank: map<JobId, int>, level: set<JobId>, n: int): (r: map<JobId, int>) {
    map v | v in rank.Keys + level :: if v in level then n else rank[v]
  }

  lemma PromoteIsTight(g: Graph, rank: map<JobId, int>, remaining: set<JobId>, n: nat, level: set<JobId>)
    requires Closed(g) && Planning(g, rank, remaining, n) && IsFreeLevel(g, remaining, level)
    ensures Tight(g, Promote(rank, level, n))
  {
    var rank' := Promote(rank, level, n);
    forall u, v | Edge(g, u, v) && v in rank' ensures u in rank' && rank'[u] < rank'[v] {
      assert v in level && u in remaining ==> Blocked(g, remaining, v);
    }
    forall v | v in rank' && rank'[v] > 0 ensures DependsBelow(g, rank', v) {
      if v in level {
        assert Waits(g, rank, remaining, v, n - 1);
        var u :| Edge(g, u, v) && u in rank && rank[u] == n - 1;
        assert u in rank' && rank'[u] == n - 1;
      } else {
        assert DependsBelow(g, rank, v);
        var u :| Edge(g, u, v) && u in rank && rank[u] == rank[v] - 1;
        assert u in rank' && rank'[u] == rank[u];
      }
    }
  }

  lemma PlanningStep(g: Graph, rank: map<JobId, int>, remaining: set<JobId>, n: nat, level: set<JobId>)
    requires Closed(g) && Planning(g, rank, remaining, n) && IsFreeLevel(g, remaining, level)
    ensures Planning(g, Promote(rank, level, n), remaining - level, n + 1)
  {
    var rank' := Promote(rank, level, n);
    var left := remaining - level;
    PromoteIsTight(g, rank, remaining, n, level);
    assert level <= remaining;
    assert rank'.Keys == g.Keys - left;
    forall v | v in left ensures Waits(g, rank', left, v, n) {
      assert v !in level && Blocked(g, remaining, v);
      var u :| Edge(g, u, v) && u in remaining;
      if u in level {
        assert u in rank' && rank'[u] == n;
      } else {
        assert u in left;
      }
    }
  }

  lemma ListsStep(g: Graph, levels: seq<set<JobId>>, rank: map<JobId, int>, remaining: set<JobId>, level: set<JobId>)
    requires Planning(g, rank, remaining, |levels|) && ListsRanks(levels, rank) && IsFreeLevel(g, remaining, level)
    ensures ListsRanks(levels + [level], Promote(rank, level, |levels|))
  {
    var more, rank' := levels + [level], Promote(rank, level, |levels|);
    forall k, v | InLevel(more, k, v) ensures v in rank' && rank'[v] == k {
      if k < |levels| {
        assert InLevel(levels, k, v);
      }
    }
    forall v | v in rank' ensures InLevel(more, rank'[v], v) {
      if v !in level {
        assert InLevel(levels, rank[v], v);
      }
    }
  }

  // ---- in-degrees

  /** The in-degree of each remaining job counts its dependencies in `waiting`. */
  ghost predicate Counts(g: Graph, inDegree: map<JobId, int>, remaining: set<JobId>, waiting: set<JobId>) {
    && inDegree.Keys == g.Keys && remaining <= g.Keys
    && (forall v {:trigger inDegree[v]} :: v in remaining ==> inDegree[v] == |g[v] * waiting|)
  }

  lemma CountIsZero(g: Graph, inDegree: map<JobId, int>, remaining: set<JobId>, v: JobId)
    requires Counts(g, inDegree, remaining, remaining) && v in remaining
    ensures inDegree[v] == 0 <==> !Blocked(g, remaining, v)
  {
    var waits := g[v] * remaining;
    assert inDegree[v] == |waits|;
    if waits != {} {
      var u :| u in waits;
      assert Edge(g, u, v);
    }
    if Blocked(g, remaining, v) {
      var u :| Edge(g, u, v) && u in remaining;
      assert u in waits;
    }
  }

  lemma CountRelax(g: Graph, count: int, v: JobId, waiting: set<JobId>, job: JobId)
    requires v in g && count == |g[v] * waiting| && job in waiting
    ensures count - (if v in Dependents(g, job) then 1 else 0) == |g[v] * (waiting - {job})|
  {
    if v in Dependents(g, job) {
      assert g[v] * (waiting - {job}) == g[v] * waiting - {job};
      DropOne(g[v] * waiting, job);
    } else {
      assert g[v] * (waiting - {job}) == g[v] * waiting;
    }
  }

  /** Takes out of `before` the jobs whose in-degree is zero. */
  method TakeFreeJobs(inDegree: map<JobId, int>, before: set<JobId>)
    returns (level: set<JobId>, remaining: set<JobId>)
    requires before <= inDegree.Keys
    ensures remaining == before - level
    ensures forall v :: v in level <==> v in before && inDegree[v] == 0
  {
    level, remaining := {}, before;
    var rest := before;
    while rest != {}
      invariant rest <= before && remaining == before - level
      invariant forall v :: v in level <==> v in before - rest && inDegree[v] == 0
      decreases rest
    {
      var v :| v in rest;
      if inDegree[v] == 0 {
        level := level + {v};
        remaining := remaining - {v};
      }
      rest := rest - {v};
    }
  }

  /** Stops counting one planned job in the in-degrees of its remaining dependents. */
  method ReleaseDependents(g: Graph, down: Graph, before: map<JobId, int>, remaining: set<JobId>, job: JobId,
                           ghost waiting: set<JobId>)
    returns (inDegree: map<JobId, int>)
    requires IsAdjacency(g, down) && job in g && job in waiting
    requires Counts(g, before, remaining, waiting)
    ensures Counts(g, inDegree, remaining, waiting - {job})
  {
    inDegree := before;
    var rest := down[job];
    while rest != {}
      invariant rest <= Dependents(g, job)
      invariant inDegree.Keys == before.Keys
      invariant forall v {:trigger inDegree[v]} :: v in before ==>
                  inDegree[v] == before[v] - (if v in remaining && v in Dependents(g, job) && v !in rest then 1 else 0)
      decreases rest
    {
      var dependent :| dependent in rest;
      assert dependent in Dependents(g, job);
      if dependent in remaining {
        inDegree := inDegree[dependent := inDegree[dependent] - 1];
      }
      rest := rest - {dependent};
    }
    forall v | v in remaining ensures inDegree[v] == |g[v] * (waiting - {job})| {
      CountRelax(g, before[v], v, waiting, job);
    }
  }

  method ReleaseLevel(g: Graph, down: Graph, before: map<JobId, int>, remaining: set<JobId>, level: set<JobId>,
                      ghost waiting: set<JobId>)
    returns (inDegree: map<JobId, int>)
    requires IsAdjacency(g, down) && level <= waiting <= g.Keys
    requires remaining == waiting - level
    requires Counts(g, before, waiting, waiting)
    ensures Counts(g, inDegree, remaining, remaining)
  {
    inDegree := before;
    var rest := level;
    assert remaining + level == waiting;
    while rest != {}
      invariant rest <= level
      invariant Counts(g, inDegree, remaining, remaining + rest)
      decreases rest
    {
      var job :| job in rest;
      inDegree := ReleaseDependents(g, down, inDegree, remaining, job, remaining + rest);
      DropFromUnion(remaining, rest, job);
      rest := rest - {job};
    }
    assert remaining + {} == remaining;
  }

  // ---- the loop

  lemma PlanStart(g: Graph, inDegree: map<JobId, int>)
    requires inDegree.Keys == g.Keys && forall v :: v in g ==> inDegree[v] == |g[v]|
    requires Closed(g)
    ensures Planning(g, map[], g.Keys, 0) && Counts(g, inDegree, g.Keys, g.Keys)
  {
    assert forall v :: v in g ==> g[v] * g.Keys == g[v];
  }

  /** An empty level exposes a cycle; any other is the next level of the plan. */
  lemma FreeJobs(g: Graph, inDegree: map<JobId, int>, before: set<JobId>, level: set<JobId>)
    requires Counts(g, inDegree, before, before)
    requires forall v :: v in level <==> v in before && v in inDegree && inDegree[v] == 0
    ensures level == {} ==> Stuck(g, before)
    ensures level != {} ==> IsFreeLevel(g, before, level)
  {
    forall v | v in before ensures v in level <==> !Blocked(g, before, v) {
      CountIsZero(g, inDegree, before, v);
    }
  }

  lemma PlanTurn(g: Graph, levels: seq<set<JobId>>, rank: map<JobId, int>, remaining: set<JobId>, level: set<JobId>)
    requires Closed(g) && Planning(g, rank, remaining, |levels|) && ListsRanks(levels, rank)
    requires IsFreeLevel(g, remaining, level)
    ensures Planning(g, Promote(rank, level, |levels|), remaining - level, |levels + [level]|)
    ensures ListsRanks(levels + [level], Promote(rank, level, |levels|))
    ensures remaining - level < remaining
  {
    PlanningStep(g, rank, remaining, |levels|, level);
    ListsStep(g, levels, rank, remaining, level);
    var v :| v in level;
    assert v in remaining && v !in remaining - level;
  }

  /** `get_execution_plan`; where it raises, `stuck` is a set of jobs each waiting for another. */
  method PlanLevels(g: Graph, down: Graph) returns (r: PlanResult, ghost stuck: set<JobId>)
    requires IsAdjacency(g, down)
    ensures r.PlanCyclicDependency? ==> Stuck(g, stuck) && stuck != {}
    ensures r.Plan? ==> IsPlan(g, r.levels) && !Cyclic(g)
  {
    var levels: seq<set<JobId>> := [];
    var remaining := g.Keys;
    var inDegree: map<JobId, int> := map v | v in g :: |g[v]|;
    ghost var rank: map<JobId, int> := map[];
    PlanStart(g, inDegree);
    while remaining != {}
      invariant Planning(g, rank, remaining, |levels|)
      invariant ListsRanks(levels, rank)
      invariant Counts(g, inDegree, remaining, remaining)
      decreases remaining
    {
      var level, left := TakeFreeJobs(inDegree, remaining);
      FreeJobs(g, inDegree, remaining, level);
      if level == {} {
        return PlanCyclicDependency, remaining;
      }
      PlanTurn(g, levels, rank, remaining, level);
      rank := Promote(rank, level, |levels|);
      levels := levels + [level];
      inDegree := ReleaseLevel(g, down, inDegree, left, level, remaining);
      remaining := left;
    }
    TightIsPlan(g, levels, rank);
    return Plan(levels), {};
  }
}
