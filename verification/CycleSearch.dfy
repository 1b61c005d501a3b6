/** The three-colour depth-first searches of `core/dag.py`: `has_cycle` and `find_cycle`. */
module CycleSearch {
  import opened Wrappers
  import opened Collections
  import opened Graphs

  datatype Color = White | Gray | Black

  ghost function Whites(color: map<JobId, Color>): set<JobId> {
    set v | v in color && color[v] == White
  }

  /** Every dependent of a finished job finished before it. */
  ghost predicate DependentsFirst(g: Graph, finish: map<JobId, int>) {
    && (forall u :: u in finish ==> finish[u] < |finish|)
    && (forall u, v :: Edge(g, u, v) && u in finish ==> v in finish && finish[v] < finish[u])
  }

  /** Gray jobs are the chain being explored; black jobs are finished, after all their dependents. */
  ghost predicate Exploring(g: Graph, color: map<JobId, Color>, stack: seq<JobId>, finish: map<JobId, int>) {
    && color.Keys == g.Keys
    && IsChain(g, stack)
    && (forall v :: v in g ==> (color[v] == Gray <==> v in stack))
    && (forall v :: v in g ==> (color[v] == Black <==> v in finish))
    && DependentsFirst(g, finish)
  }

  lemma AllFinishedIsAcyclic(g: Graph, finish: map<JobId, int>)
    requires g.Keys <= finish.Keys && DependentsFirst(g, finish)
    ensures !Cyclic(g)
  {
    var rank := map v | v in g :: -finish[v];
    RankedIsAcyclic(g, rank);
  }

  lemma EnterJob(g: Graph, color: map<JobId, Color>, stack: seq<JobId>, finish: map<JobId, int>, v: JobId)
    requires Exploring(g, color, stack, finish) && v in g && color[v] == White
    requires stack != [] ==> Edge(g, stack[|stack| - 1], v)
    ensures Exploring(g, color[v := Gray], stack + [v], finish)
    ensures Whites(color[v := Gray]) == Whites(color) - {v} && v in Whites(color)
  {
    ChainConcat(g, stack, [v]);
  }

  lemma LeaveJob(g: Graph, color: map<JobId, Color>, stack: seq<JobId>, finish: map<JobId, int>, v: JobId)
    requires Closed(g) && Exploring(g, color, stack + [v], finish) && v !in stack
    requires forall d :: d in Dependents(g, v) ==> color[d] == Black
    ensures Exploring(g, color[v := Black], stack, finish[v := |finish|])
    ensures Whites(color[v := Black]) == Whites(color)
  {
    var path := stack + [v];
    ChainSlice(g, path, 0, |stack|);
    assert path[..|stack|] == stack;
    assert v in path && v !in finish;
    forall u, w | Edge(g, u, w) && u in finish[v := |finish|]
      ensures w in finish && finish[w] < finish[v := |finish|][u]
    {
      if u == v {
        assert w in Dependents(g, v);
      }
    }
  }

  ghost predicate Progress(before: map<JobId, Color>, after: map<JobId, Color>) {
    && before.Keys == after.Keys
    && Whites(after) <= Whites(before)
    && (forall u :: u in before && before[u] == Black ==> after[u] == Black)
  }

  /** What holds while the dependents of `v`, the top of the stack, are examined. */
  ghost predicate Examining(g: Graph, before: map<JobId, Color>, color: map<JobId, Color>, stack: seq<JobId>,
                            finish: map<JobId, int>, v: JobId, rest: set<JobId>)
  {
    && Exploring(g, color, stack + [v], finish)
    && Progress(before, color)
    && rest <= Dependents(g, v)
    && (forall d :: d in Dependents(g, v) && d !in rest ==> color[d] == Black)
  }

  lemma EnterExamining(g: Graph, color: map<JobId, Color>, stack: seq<JobId>, finish: map<JobId, int>, v: JobId)
    requires Exploring(g, color, stack, finish) && v in g && color[v] == White
    requires stack != [] ==> Edge(g, stack[|stack| - 1], v)
    ensures v !in Whites(color[v := Gray]) && v in Whites(color)
    ensures Examining(g, color, color[v := Gray], stack, finish, v, Dependents(g, v))
  {
    EnterJob(g, color, stack, finish, v);
  }

  /** Meeting a gray dependent closes a cycle. */
  lemma MeetGray(g: Graph, stack: seq<JobId>, v: JobId, d: JobId) returns (k: nat)
    requires IsChain(g, stack + [v]) && d in stack + [v] && d in Dependents(g, v)
    ensures k <= |stack| && (stack + [v])[k] == d && Cyclic(g)
  {
    var path := stack + [v];
    k :| 0 <= k < |path| && path[k] == d;
    CloseCycle(g, path, k);
  }

  // Stated as an implication, so that a caller need not restate what it knows.
  lemma ExamineWhite(g: Graph, before: map<JobId, Color>, color: map<JobId, Color>, after: map<JobId, Color>,
                     stack: seq<JobId>, finish: map<JobId, int>, finish': map<JobId, int>,
                     v: JobId, rest: set<JobId>, d: JobId)
    ensures && Examining(g, before, color, stack, finish, v, rest)
            && Exploring(g, after, stack + [v], finish') && Progress(color, after)
            && d in after && after[d] == Black ==>
              Examining(g, before, after, stack, finish', v, rest - {d})
  {}

  lemma LeaveExamining(g: Graph, before: map<JobId, Color>, color: map<JobId, Color>, stack: seq<JobId>,
                       finish: map<JobId, int>, v: JobId)
    requires Closed(g) && Examining(g, before, color, stack, finish, v, {}) && v !in stack
    ensures v in color && Exploring(g, color[v := Black], stack, finish[v := |finish|])
    ensures Progress(before, color[v := Black])
  {
    LeaveJob(g, color, stack, finish, v);
  }

  /** The inner `dfs` of `has_cycle`. */
  method VisitForCycle(g: Graph, down: Graph, before: map<JobId, Color>, v: JobId,
                       ghost stack: seq<JobId>, ghost finishBefore: map<JobId, int>)
    returns (found: bool, color: map<JobId, Color>, ghost finish: map<JobId, int>)
    requires IsAdjacency(g, down) && v in g
    requires Exploring(g, before, stack, finishBefore) && before[v] == White
    requires stack != [] ==> Edge(g, stack[|stack| - 1], v)
    ensures found ==> Cyclic(g)
    ensures !found ==> Exploring(g, color, stack, finish) && Progress(before, color) && color[v] == Black
    decreases Whites(before), 0
  {
    found, color, finish := false, before[v := Gray], finishBefore;
    EnterExamining(g, before, stack, finish, v);
    var rest := down[v];
    while rest != {}
      invariant Examining(g, before, color, stack, finish, v, rest) && v !in Whites(color) && !found
      decreases rest
    {
      var dependent :| dependent in rest;
      ghost var examined, order := color, finish;
      assert Whites(color) < Whites(before) by { assert v in Whites(before); }
      found, color, finish := TryDependent(g, down, color, v, dependent, stack, finish);
      if found {
        return;
      }
      ExamineWhite(g, before, examined, color, stack, order, finish, v, rest, dependent);
      rest := rest - {dependent};
    }
    LeaveExamining(g, before, color, stack, finish, v);
    color := color[v := Black];
    finish := finish[v := |finish|];
  }

  /** The body of the loop of `dfs` in `has_cycle`. */
  method TryDependent(g: Graph, down: Graph, before: map<JobId, Color>, v: JobId, dependent: JobId,
                      ghost stack: seq<JobId>, ghost finishBefore: map<JobId, int>)
    returns (found: bool, color: map<JobId, Color>, ghost finish: map<JobId, int>)
    requires IsAdjacency(g, down) && dependent in Dependents(g, v)
    requires Exploring(g, before, stack + [v], finishBefore)
    ensures found ==> Cyclic(g)
    ensures !found ==> Exploring(g, color, stack + [v], finish) && Progress(before, color)
    ensures !found ==> color[dependent] == Black
    decreases Whites(before), 1
  {
    found, color, finish := false, before, finishBefore;
    if color[dependent] == Gray {
      var _ := MeetGray(g, stack, v, dependent);
      return true, color, finish;
    }
    if color[dependent] == White {
      found, color, finish := VisitForCycle(g, down, color, dependent, stack + [v], finish);
    }
  }

  /** Between two searches: the given jobs have been searched, and none is gray. */
  ghost predicate Searched(g: Graph, color: map<JobId, Color>, finish: map<JobId, int>, done: set<JobId>) {
    && Exploring(g, color, [], finish)
    && done <= g.Keys
    && forall v :: v in done ==> v in color && color[v] == Black
  }

  lemma SearchedMore(g: Graph, before: map<JobId, Color>, finishBefore: map<JobId, int>, done: set<JobId>,
                     color: map<JobId, Color>, finish: map<JobId, int>, v: JobId)
    requires Searched(g, before, finishBefore, done) && v in g
    requires Exploring(g, color, [], finish) && Progress(before, color) && color[v] != White
    ensures Searched(g, color, finish, done + {v})
  {
    assert color[v] != Gray;
  }

  lemma NothingSearched(g: Graph, color: map<JobId, Color>)
    requires color.Keys == g.Keys && forall v :: v in color ==> color[v] == White
    ensures Searched(g, color, map[], {})
  {}

  /** One step of `has_cycle`: searches from a job that has not been met yet. */
  method SearchOne(g: Graph, down: Graph, before: map<JobId, Color>, v: JobId, ghost done: set<JobId>,
                   ghost finishBefore: map<JobId, int>)
    returns (found: bool, color: map<JobId, Color>, ghost finish: map<JobId, int>)
    requires IsAdjacency(g, down) && v in g && Searched(g, before, finishBefore, done)
    ensures found ==> Cyclic(g)
    ensures !found ==> Searched(g, color, finish, done + {v})
  {
    found, color, finish := false, before, finishBefore;
    if color[v] == White {
      found, color, finish := VisitForCycle(g, down, before, v, [], finishBefore);
    }
    if !found {
      SearchedMore(g, before, finishBefore, done, color, finish, v);
    }
  }

  /** `has_cycle`. */
  method SearchForCycle(g: Graph, down: Graph) returns (found: bool)
    requires IsAdjacency(g, down)
    ensures found <==> Cyclic(g)
  {
    var color: map<JobId, Color> := map v | v in g :: White;
    ghost var finish: map<JobId, int>, done := map[], {};
    NothingSearched(g, color);
    var rest := g.Keys;
    while rest != {}
      invariant rest + done == g.Keys
      invariant Searched(g, color, finish, done)
      decreases rest
    {
      var v :| v in rest;
      found, color, finish := SearchOne(g, down, color, v, done, finish);
      if found {
        return;
      }
      MoveOver(rest, done, v);
      rest, done := rest - {v}, done + {v};
    }
    AllSearchedIsAcyclic(g, color, finish, rest, done);
    return false;
  }

  lemma AllSearchedIsAcyclic(g: Graph, color: map<JobId, Color>, finish: map<JobId, int>, rest: set<JobId>,
                             done: set<JobId>)
    requires Closed(g) && Searched(g, color, finish, done) && rest + done == g.Keys && rest == {}
    ensures !Cyclic(g)
  {
    assert done == g.Keys;
    AllFinishedIsAcyclic(g, finish);
  }

  // ---- cycle reports

  /** A search path whose last job has an edge back to its `k`-th. */
  ghost predicate BackEdge(g: Graph, trail: seq<JobId>, k: nat) {
    k < |trail| && IsChain(g, trail) && Distinct(trail) && Edge(g, trail[|trail| - 1], trail[k])
  }

  /** What the walk up from the job met again lists: that job, then the search path from its root down to it. */
  ghost predicate ListsTrail(r: seq<JobId>, trail: seq<JobId>, k: nat) {
    k < |trail| && r == [trail[k]] + trail[..k + 1]
  }

  /** What `find_cycle` reports: the list of some search path with a back edge. */
  ghost predicate CycleReport(g: Graph, r: seq<JobId>) {
    exists trail, k: nat {:trigger ListsTrail(r, trail, k)} :: BackEdge(g, trail, k) && ListsTrail(r, trail, k)
  }

  /** The report starts and ends at a job of a real cycle, and from its second element on it is a path. */
  lemma ReportEndsOnCycle(g: Graph, r: seq<JobId>)
    requires CycleReport(g, r)
    ensures |r| >= 2 && r[0] == r[|r| - 1] && OnCycle(g, r[0]) && IsChain(g, r[1..]) && Cyclic(g)
  {
    var trail, k: nat :| BackEdge(g, trail, k) && ListsTrail(r, trail, k);
    CloseCycle(g, trail, k);
    ChainSlice(g, trail, 0, k + 1);
    assert r[1..] == trail[..k + 1];
    assert r[|r| - 1] == trail[k];
  }

  lemma ReportIsCycleIffFirstStepIsEdge(g: Graph, r: seq<JobId>)
    requires CycleReport(g, r)
    ensures IsCycle(g, r) <==> Edge(g, r[0], r[1])
  {
    ReportEndsOnCycle(g, r);
    assert r == [r[0]] + r[1..];
    var p :| IsCycle(g, p) && p[0] == r[0];
    if Edge(g, r[0], r[1]) {
      assert r[0] in g;
      assert IsChain(g, [r[0]]);
      ChainConcat(g, [r[0]], r[1..]);
    }
  }

  /** Every job of a cycle has an edge to each of its ancestors, itself included. */
  ghost predicate CyclesReachBack(g: Graph) {
    forall c, u {:trigger Edge(g, c, u)} :: OnCycle(g, c) && Reaches(g, u, c) ==> Edge(g, c, u)
  }

  /** A chain from `u` to `v` can be shortened to one without repetitions. */
  lemma {:induction false} SimpleChain(g: Graph, p: seq<JobId>, u: JobId, v: JobId) returns (q: seq<JobId>)
    requires ChainBetween(g, p, u, v)
    ensures ChainBetween(g, q, u, v) && Distinct(q)
    decreases |p|
  {
    if Distinct(p) {
      q := p;
    } else {
      var i, j :| 0 <= i < j < |p| && p[i] == p[j];
      ChainSlice(g, p, 0, i + 1);
      ChainSlice(g, p, j + 1, |p|);
      assert j + 1 < |p| ==> Edge(g, p[j], p[j + 1]);
      ChainConcat(g, p[0..i + 1], p[j + 1..|p|]);
      q := SimpleChain(g, p[0..i + 1] + p[j + 1..|p|], u, v);
    }
  }

  /** Every job of a cycle is the root of some search path that comes back to it. */
  lemma CycleHasBackEdge(g: Graph, c: JobId) returns (trail: seq<JobId>)
    requires OnCycle(g, c)
    ensures BackEdge(g, trail, 0) && trail[0] == c
  {
    var p :| IsCycle(g, p) && p[0] == c;
    var n := |p| - 1;
    ChainSlice(g, p, 0, n);
    assert Edge(g, p[n - 1], p[n]);
    trail := SimpleChain(g, p[0..n], c, p[n - 1]);
  }

  lemma BackEdgeReport(g: Graph, trail: seq<JobId>, k: nat)
    requires BackEdge(g, trail, k)
    ensures CycleReport(g, [trail[k]] + trail[..k + 1])
    ensures IsCycle(g, [trail[k]] + trail[..k + 1]) <==> Edge(g, trail[k], trail[0])
  {
    var r := [trail[k]] + trail[..k + 1];
    assert ListsTrail(r, trail, k);
    ReportIsCycleIffFirstStepIsEdge(g, r);
  }

  /**
   * Whatever order the search takes, its report is a cycle exactly if, in the graph, every job of a cycle has an edge
   * to each of its ancestors. An ordinary cycle of two jobs is already enough to break this.
   */
  lemma ReportsAreCyclesIff(g: Graph)
    ensures (forall r :: CycleReport(g, r) ==> IsCycle(g, r)) <==> CyclesReachBack(g)
  {
    if CyclesReachBack(g) {
      forall r | CycleReport(g, r) ensures IsCycle(g, r) {
        ReportEndsOnCycle(g, r);
        assert ChainBetween(g, r[1..], r[1], r[0]);
        assert Edge(g, r[0], r[1]);
        ReportIsCycleIffFirstStepIsEdge(g, r);
      }
    }
    if forall r :: CycleReport(g, r) ==> IsCycle(g, r) {
      forall c, u | OnCycle(g, c) && Reaches(g, u, c) ensures Edge(g, c, u) {
        var around := CycleHasBackEdge(g, c);
        BackEdgeReport(g, around, 0);
        assert Edge(g, c, c);
        var p :| ChainBetween(g, p, u, c);
        var trail := SimpleChain(g, p, u, c);
        BackEdgeReport(g, trail, |trail| - 1);
      }
    }
  }

  // ---- find_cycle

  /** The parent links of the jobs on a search path lead back along it to its start, which has none. */
  ghost predicate ParentsFollow(path: seq<JobId>, parent: map<JobId, Option<JobId>>) {
    && (forall i :: 0 <= i < |path| ==> path[i] in parent)
    && (path != [] ==> parent[path[0]] == None)
    && (forall i, j {:trigger LinkedBack(path, parent, i, j)} ::
          0 <= i < |path| && j == i + 1 < |path| ==> LinkedBack(path, parent, i, j))
  }

  ghost predicate LinkedBack(path: seq<JobId>, parent: map<JobId, Option<JobId>>, i: int, j: int) {
    0 <= i < |path| && 0 <= j < |path| && path[j] in parent && parent[path[j]] == Some(path[i])
  }

  /** Jobs not met yet have no parent. */
  ghost predicate UnmetOrphans(color: map<JobId, Color>, parent: map<JobId, Option<JobId>>) {
    color.Keys == parent.Keys && forall u :: u in color && color[u] == White ==> parent[u] == None
  }

  ghost predicate ParentsKnown(color: map<JobId, Color>, parent: map<JobId, Option<JobId>>, path: seq<JobId>) {
    UnmetOrphans(color, parent) && ParentsFollow(path, parent) && Distinct(path)
  }

  /** What a search that met a gray job at position `k` of its path knows. */
  ghost predicate BackEdgeFound(g: Graph, parent: map<JobId, Option<JobId>>, path: seq<JobId>, k: nat) {
    BackEdge(g, path, k) && ParentsFollow(path, parent)
  }

  lemma ExtendParents(color: map<JobId, Color>, parent: map<JobId, Option<JobId>>, path: seq<JobId>, d: JobId)
    requires ParentsKnown(color, parent, path) && path != [] && d !in path && d in color
    ensures ParentsKnown(color[d := Gray], parent[d := Some(path[|path| - 1])], path + [d])
  {
    var longer, parent' := path + [d], parent[d := Some(path[|path| - 1])];
    forall i, j | 0 <= i < |longer| && j == i + 1 < |longer| ensures LinkedBack(longer, parent', i, j) {
      assert j < |path| ==> LinkedBack(path, parent, i, j);
    }
  }

  // ---- the order in which jobs and dependents come up

  ghost predicate Orders(down: Graph, lists: map<JobId, seq<JobId>>) {
    lists.Keys == down.Keys && forall v :: v in down ==> Distinct(lists[v]) && Elements(lists[v]) == down[v]
  }

  /** The order leads the search straight down the trail and then back to its `k`-th job. */
  ghost predicate Leads(lists: map<JobId, seq<JobId>>, trail: seq<JobId>, k: nat) {
    && k < |trail| && Distinct(trail)
    && forall i {:trigger trail[i]} :: 0 <= i < |trail| ==>
         && trail[i] in lists && lists[trail[i]] != []
         && lists[trail[i]][0] == if i + 1 < |trail| then trail[i + 1] else trail[k]
  }

  /** The search has come down the first part of the trail and met nothing else. */
  ghost predicate OnWay(color: map<JobId, Color>, path: seq<JobId>, trail: seq<JobId>) {
    && path != [] && |path| <= |trail| && path == trail[..|path|]
    && forall u :: u in color ==> (color[u] == Gray <==> u in path) && color[u] != Black
  }

  lemma NextOnWay(color: map<JobId, Color>, path: seq<JobId>, trail: seq<JobId>)
    requires OnWay(color, path, trail) && Distinct(trail) && |path| < |trail| && trail[|path|] in color
    ensures color[trail[|path|]] == White
    ensures OnWay(color[trail[|path|] := Gray], path + [trail[|path|]], trail)
  {
    var d := trail[|path|];
    assert forall i :: 0 <= i < |path| ==> path[i] == trail[i];
    assert trail[..|path| + 1] == path + [d];
  }

  /** On the way the next dependent is the next job of the trail, not met yet, or at its end the one to meet again. */
  lemma WayGoesOn(lists: map<JobId, seq<JobId>>, goal: seq<JobId>, m: nat, color: map<JobId, Color>,
                  stack: seq<JobId>, v: JobId, d: JobId)
    ensures var path := stack + [v];
            Leads(lists, goal, m) && OnWay(color, path, goal) && v in lists && [d] <= lists[v] && d in color ==>
              && (color[d] == White ==> OnWay(color[d := Gray], path + [d], goal))
              && (color[d] != White ==> color[d] == Gray && path == goal && d == goal[m])
  {
    var path := stack + [v];
    if Leads(lists, goal, m) && OnWay(color, path, goal) && v in lists && [d] <= lists[v] && d in color {
      assert goal[|stack|] == v;
      if |path| < |goal| {
        NextOnWay(color, path, goal);
      } else {
        assert d == goal[m] && path == goal;
        assert goal[m] in path;
      }
    }
  }

  lemma WayHasNext(lists: map<JobId, seq<JobId>>, goal: seq<JobId>, m: nat, color: map<JobId, Color>,
                   stack: seq<JobId>, v: JobId)
    ensures Leads(lists, goal, m) && OnWay(color, stack + [v], goal) ==> v in lists && lists[v] != []
  {
    if Leads(lists, goal, m) && OnWay(color, stack + [v], goal) {
      assert goal[|stack|] == v;
    }
  }

  lemma RestOfList(list: seq<JobId>, i: nat)
    requires Distinct(list) && i < |list|
    ensures Elements(list[i + 1..]) == Elements(list[i..]) - {list[i]} && list[i] in Elements(list[i..])
  {
    var tail := list[i..];
    assert tail == [list[i]] + list[i + 1..];
    assert list[i] !in list[i + 1..];
  }

  /** The inner `dfs` of `find_cycle`; on a hit, `trail` is the search path and `trail[k]` the job met again. */
  method VisitForBackEdge(g: Graph, lists: map<JobId, seq<JobId>>, before: map<JobId, Color>,
                          parentBefore: map<JobId, Option<JobId>>, v: JobId, ghost down: Graph,
                          ghost stack: seq<JobId>, ghost finishBefore: map<JobId, int>, ghost goal: seq<JobId>,
                          ghost m: nat)
    returns (hit: Option<JobId>, color: map<JobId, Color>, parent: map<JobId, Option<JobId>>,
             ghost finish: map<JobId, int>, ghost trail: seq<JobId>, ghost k: nat)
    requires IsAdjacency(g, down) && Orders(down, lists) && v in g
    requires Exploring(g, before, stack, finishBefore) && before[v] == White
    requires stack != [] ==> Edge(g, stack[|stack| - 1], v)
    requires ParentsKnown(before[v := Gray], parentBefore, stack + [v])
    ensures hit.Some? ==> BackEdgeFound(g, parent, trail, k) && trail[k] == hit.value
    ensures hit.None? ==> Exploring(g, color, stack, finish) && Progress(before, color) && color[v] == Black
    ensures hit.None? ==> ParentsKnown(color, parent, stack + [v])
    ensures Leads(lists, goal, m) && OnWay(before[v := Gray], stack + [v], goal) ==>
              hit.Some? && trail == goal && k == m
    decreases Whites(before), 0
  {
    hit, color, parent, finish, trail, k := None, before[v := Gray], parentBefore, finishBefore, [], 0;
    EnterExamining(g, before, stack, finish, v);
    ghost var led := Leads(lists, goal, m) && OnWay(color, stack + [v], goal);
    var list := lists[v];
    WayHasNext(lists, goal, m, color, stack, v);
    assert list[0..] == list;
    for i := 0 to |list|
      invariant Examining(g, before, color, stack, finish, v, Elements(list[i..])) && v !in Whites(color)
      invariant ParentsKnown(color, parent, stack + [v]) && hit.None?
      invariant led ==> i == 0 && color == before[v := Gray]
    {
      RestOfList(list, i);
      assert i == 0 ==> [list[i]] <= list;
      ghost var examined, order := color, finish;
      assert Whites(color) < Whites(before) by { assert v in Whites(before); }
      hit, color, parent, finish, trail, k :=
        ExamineDependent(g, lists, color, parent, v, list[i], down, stack, finish, goal, m);
      if hit.Some? {
        return;
      }
      ExamineWhite(g, before, examined, color, stack, order, finish, v, Elements(list[i..]), list[i]);
    }
    LeaveExamining(g, before, color, stack, finish, v);
    color := color[v := Black];
    finish := finish[v := |finish|];
  }

  /** The body of the loop of `dfs` in `find_cycle`. */
  method ExamineDependent(g: Graph, lists: map<JobId, seq<JobId>>, before: map<JobId, Color>,
                          parentBefore: map<JobId, Option<JobId>>, v: JobId, dependent: JobId, ghost down: Graph,
                          ghost stack: seq<JobId>, ghost finishBefore: map<JobId, int>, ghost goal: seq<JobId>,
                          ghost m: nat)
    returns (hit: Option<JobId>, color: map<JobId, Color>, parent: map<JobId, Option<JobId>>,
             ghost finish: map<JobId, int>, ghost trail: seq<JobId>, ghost k: nat)
    requires IsAdjacency(g, down) && Orders(down, lists) && dependent in Dependents(g, v)
    requires Exploring(g, before, stack + [v], finishBefore)
    requires ParentsKnown(before, parentBefore, stack + [v])
    ensures hit.Some? ==> BackEdgeFound(g, parent, trail, k) && trail[k] == hit.value
    ensures hit.None? ==> Exploring(g, color, stack + [v], finish) && Progress(before, color)
    ensures hit.None? ==> color[dependent] == Black
    ensures hit.None? ==> ParentsKnown(color, parent, stack + [v])
    ensures Leads(lists, goal, m) && OnWay(before, stack + [v], goal) && [dependent] <= lists[v] ==>
              hit.Some? && trail == goal && k == m
    decreases Whites(before), 1
  {
    hit, color, parent, finish, trail, k := None, before, parentBefore, finishBefore, stack + [v], 0;
    WayGoesOn(lists, goal, m, before, stack, v, dependent);
    if color[dependent] == Gray {
      k := MeetGray(g, stack, v, dependent);
      hit := Some(dependent);
    } else if color[dependent] == White {
      ExtendParents(before, parentBefore, stack + [v], dependent);
      parent := parent[dependent := Some(v)];
      hit, color, parent, finish, trail, k :=
        VisitForBackEdge(g, lists, color, parent, dependent, down, stack + [v], finish, goal, m);
      ParentsOfPrefix(stack + [v], dependent, color, parent);
    }
  }

  lemma ParentsOfPrefix(path: seq<JobId>, d: JobId, color: map<JobId, Color>, parent: map<JobId, Option<JobId>>)
    ensures ParentsKnown(color, parent, path + [d]) ==> ParentsKnown(color, parent, path)
  {
    var longer := path + [d];
    if ParentsKnown(color, parent, longer) {
      assert longer[..|path|] == path;
      assert forall i :: 0 <= i < |path| ==> path[i] == longer[i];
      forall i, j | 0 <= i < |path| && j == i + 1 < |path| ensures LinkedBack(path, parent, i, j) {
        assert LinkedBack(longer, parent, i, j);
      }
    }
  }

  function Reversed(s: seq<JobId>): (r: seq<JobId>)
    ensures |r| == |s|
  {
    if s == [] then [] else Reversed(s[1..]) + [s[0]]
  }

  lemma {:induction false} ReversedAppend(s: seq<JobId>, x: JobId)
    ensures Reversed(s + [x]) == [x] + Reversed(s)
  {
    if s != [] {
      assert (s + [x])[1..] == s[1..] + [x];
      ReversedAppend(s[1..], x);
    }
  }

  lemma SliceHead(path: seq<JobId>, lo: nat, hi: nat)
    requires lo < hi <= |path|
    ensures path[lo..hi] == [path[lo]] + path[lo + 1..hi]
  {}

  /** Follows the parent links up from the job met again; the walk ends at the root of the search. */
  method ReconstructCycle(g: Graph, parent: map<JobId, Option<JobId>>, hit: JobId, ghost path: seq<JobId>, ghost k: nat)
    returns (r: seq<JobId>)
    requires BackEdgeFound(g, parent, path, k) && path[k] == hit
    ensures ListsTrail(r, path, k)
  {
    var cycle := [hit];
    var current := parent[hit];
    ghost var j := k;
    assert k > 0 ==> LinkedBack(path, parent, k - 1, k);
    assert Reversed(cycle) == path[j..k + 1];
    while current != Some(hit) && current.Some?
      invariant j <= k
      invariant Reversed(cycle) == path[j..k + 1]
      invariant current == if j == 0 then None else Some(path[j - 1])
      decreases j
    {
      ReversedAppend(cycle, current.value);
      cycle := cycle + [current.value];
      j := j - 1;
      assert path[j] == current.value;
      assert j > 0 ==> LinkedBack(path, parent, j - 1, j);
      SliceHead(path, j, k + 1);
      current := parent[current.value];
    }
    assert j == 0;
    ReversedAppend(cycle, hit);
    return Reversed(cycle + [hit]);
  }

  lemma StartSearch(color: map<JobId, Color>, parent: map<JobId, Option<JobId>>, v: JobId)
    requires UnmetOrphans(color, parent) && v in color && color[v] == White
    ensures ParentsKnown(color[v := Gray], parent, [] + [v])
  {
    assert [] + [v] == [v];
  }

  /** One step of `find_cycle`: searches from a job that has not been met yet. */
  method SearchFrom(g: Graph, lists: map<JobId, seq<JobId>>, before: map<JobId, Color>,
                    parentBefore: map<JobId, Option<JobId>>, v: JobId, ghost down: Graph, ghost done: set<JobId>,
                    ghost finishBefore: map<JobId, int>, ghost goal: seq<JobId>, ghost m: nat)
    returns (r: Option<seq<JobId>>, color: map<JobId, Color>, parent: map<JobId, Option<JobId>>,
             ghost finish: map<JobId, int>)
    requires IsAdjacency(g, down) && Orders(down, lists) && v in g
    requires Searched(g, before, finishBefore, done) && UnmetOrphans(before, parentBefore)
    ensures r.Some? ==> CycleReport(g, r.value)
    ensures r.None? ==> Searched(g, color, finish, done + {v}) && UnmetOrphans(color, parent)
    ensures Leads(lists, goal, m) && Whites(before) == g.Keys && goal[0] == v ==>
              r.Some? && ListsTrail(r.value, goal, m)
  {
    color, parent, finish := before, parentBefore, finishBefore;
    assert Whites(before) == g.Keys ==> v in Whites(before);
    if color[v] == White {
      StartSearch(before, parentBefore, v);
      StartOnWay(before, v, goal);
      var hit;
      ghost var trail, k;
      hit, color, parent, finish, trail, k :=
        VisitForBackEdge(g, lists, before, parentBefore, v, down, [], finishBefore, goal, m);
      if hit.Some? {
        var cycle := ReconstructCycle(g, parent, hit.value, trail, k);
        return Some(cycle), color, parent, finish;
      }
    }
    SearchedMore(g, before, finishBefore, done, color, finish, v);
    return None, color, parent, finish;
  }

  lemma StartOnWay(color: map<JobId, Color>, v: JobId, goal: seq<JobId>)
    requires v in color
    ensures Whites(color) == color.Keys && goal != [] && goal[0] == v ==> OnWay(color[v := Gray], [] + [v], goal)
  {
    if Whites(color) == color.Keys && goal != [] && goal[0] == v {
      assert goal[..1] == [] + [v];
      forall u | u in color ensures color[u] == White {
        assert u in Whites(color);
      }
    }
  }

  /** `find_cycle`, given the orders in which it comes across the jobs and the dependents of each job. */
  method ReportInOrder(g: Graph, order: seq<JobId>, lists: map<JobId, seq<JobId>>, ghost down: Graph,
                       ghost goal: seq<JobId>, ghost m: nat)
    returns (r: Option<seq<JobId>>)
    requires IsAdjacency(g, down) && Orders(down, lists) && Distinct(order) && Elements(order) == g.Keys
    ensures r.Some? <==> Cyclic(g)
    ensures r.Some? ==> CycleReport(g, r.value)
    ensures Leads(lists, goal, m) && goal[..1] <= order ==> r.Some? && ListsTrail(r.value, goal, m)
  {
    var color: map<JobId, Color> := map v | v in g :: White;
    var parent: map<JobId, Option<JobId>> := map v | v in g :: None;
    ghost var finish: map<JobId, int> := map[];
    StartOrder(g, color, order);
    for i := 0 to |order|
      invariant Searched(g, color, finish, Elements(order[..i])) && UnmetOrphans(color, parent)
      invariant i == 0 ==> Whites(color) == g.Keys
      invariant i > 0 ==> !(Leads(lists, goal, m) && goal[..1] <= order)
    {
      ghost var done := Elements(order[..i]);
      var report;
      report, color, parent, finish := SearchFrom(g, lists, color, parent, order[i], down, done, finish, goal, m);
      if report.Some? {
        ReportEndsOnCycle(g, report.value);
        SameFirst(goal, order);
        return report;
      }
      ElementsOfPrefix(order, i);
      SameFirst(goal, order);
    }
    EndOrder(g, color, finish, order);
    SameFirst(goal, order);
    return None;
  }

  lemma StartOrder(g: Graph, color: map<JobId, Color>, order: seq<JobId>)
    requires color.Keys == g.Keys && forall v :: v in color ==> color[v] == White
    ensures Searched(g, color, map[], Elements(order[..0])) && Whites(color) == g.Keys
  {
    assert Elements(order[..0]) == {};
  }

  lemma SameFirst(goal: seq<JobId>, order: seq<JobId>)
    ensures goal != [] && goal[..1] <= order ==> order != [] && order[0] == goal[0]
  {
    if goal != [] && goal[..1] <= order {
      assert order[0] == goal[..1][0];
    }
  }

  lemma EndOrder(g: Graph, color: map<JobId, Color>, finish: map<JobId, int>, order: seq<JobId>)
    requires Closed(g) && Searched(g, color, finish, Elements(order[..|order|])) && Elements(order) == g.Keys
    ensures !Cyclic(g)
  {
    assert order[..|order|] == order;
    AllSearchedIsAcyclic(g, color, finish, {}, g.Keys);
  }

  /** `find_cycle`, in whatever order jobs and dependents come up. */
  method ReportCycle(g: Graph, down: Graph) returns (r: Option<seq<JobId>>)
    requires IsAdjacency(g, down)
    ensures r.Some? <==> Cyclic(g)
    ensures r.Some? ==> CycleReport(g, r.value)
  {
    var order := Enumerate(g.Keys);
    var lists := EnumerateDependents(down, map[]);
    r := ReportInOrder(g, order, lists, down, [], 0);
  }

  /** Orders the dependents of every job; `first` gives the one to come first, where there is a wish. */
  method EnumerateDependents(down: Graph, first: map<JobId, JobId>) returns (lists: map<JobId, seq<JobId>>)
    requires forall v :: v in first ==> v in down && first[v] in down[v]
    ensures Orders(down, lists)
    ensures forall v :: v in first ==> lists[v] != [] && lists[v][0] == first[v]
  {
    lists := map[];
    var rest := down.Keys;
    while rest != {}
      invariant rest <= down.Keys && lists.Keys == down.Keys - rest
      invariant forall v :: v in lists ==> Distinct(lists[v]) && Elements(lists[v]) == down[v]
      invariant forall v :: v in lists && v in first ==> lists[v] != [] && lists[v][0] == first[v]
      decreases rest
    {
      var v :| v in rest;
      var list;
      if v in first {
        list := EnumerateFirst(down[v], first[v]);
      } else {
        list := Enumerate(down[v]);
      }
      lists := lists[v := list];
      rest := rest - {v};
    }
  }

  method EnumerateFirst(b: set<JobId>, x: JobId) returns (s: seq<JobId>)
    requires x in b
    ensures Distinct(s) && Elements(s) == b && s != [] && s[0] == x
  {
    var others := Enumerate(b - {x});
    s := [x] + others;
    assert x !in Elements(others);
    assert Elements(s) == {x} + Elements(others);
  }

  /** Every report that the definition admits is one that `find_cycle` returns in some order. */
  method ReportAlong(g: Graph, down: Graph, trail: seq<JobId>, k: nat) returns (r: Option<seq<JobId>>)
    requires IsAdjacency(g, down) && BackEdge(g, trail, k)
    ensures r == Some([trail[k]] + trail[..k + 1])
  {
    var order := EnumerateFirst(g.Keys, trail[0]);
    var first := map v | v in trail :: NextOnTrail(trail, k, v);
    forall v | v in trail ensures v in down && NextOnTrail(trail, k, v) in down[v] {
      NextIsDependent(g, trail, k, v);
    }
    var lists := EnumerateDependents(down, first);
    FirstLeads(lists, trail, k);
    r := ReportInOrder(g, order, lists, down, trail, k);
  }

  function IndexOf(s: seq<JobId>, v: JobId): (i: nat)
    requires v in s
    ensures i < |s| && s[i] == v
  {
    if s[0] == v then 0 else 1 + IndexOf(s[1..], v)
  }

  /** What comes after a job on the trail, and after its last job the one to meet again. */
  function NextOnTrail(trail: seq<JobId>, k: nat, v: JobId): JobId
    requires v in trail && k < |trail|
  {
    var i := IndexOf(trail, v);
    if i + 1 < |trail| then trail[i + 1] else trail[k]
  }

  lemma NextIsDependent(g: Graph, trail: seq<JobId>, k: nat, v: JobId)
    requires BackEdge(g, trail, k) && v in trail
    ensures v in g && NextOnTrail(trail, k, v) in Dependents(g, v)
  {
    var i := IndexOf(trail, v);
    assert i + 1 < |trail| ==> Edge(g, trail[i], trail[i + 1]);
  }

  lemma FirstLeads(lists: map<JobId, seq<JobId>>, trail: seq<JobId>, k: nat)
    requires k < |trail| && Distinct(trail)
    requires forall v :: v in trail ==> v in lists && lists[v] != [] && lists[v][0] == NextOnTrail(trail, k, v)
    ensures Leads(lists, trail, k)
  {
    forall i {:trigger trail[i]} | 0 <= i < |trail|
      ensures lists[trail[i]][0] == if i + 1 < |trail| then trail[i + 1] else trail[k]
    {
      assert IndexOf(trail, trail[i]) == i;
    }
  }

  /** On two jobs that depend on each other every report repeats one job, which is no cycle. */
  lemma TwoJobReports(a: JobId, b: JobId, r: seq<JobId>)
    requires a != b
    requires CycleReport(map[a := {b}, b := {a}], r)
    ensures (r == [a, a] || r == [b, b]) && !IsCycle(map[a := {b}, b := {a}], r)
  {
    var g: Graph := map[a := {b}, b := {a}];
    var trail, k: nat :| BackEdge(g, trail, k) && ListsTrail(r, trail, k);
    DistinctWithin(trail, {a, b});
    var last := |trail| - 1;
    assert Edge(g, trail[last], trail[k]) && trail[last] != trail[k];
    assert k == 0 && r == [trail[0], trail[0]];
    ReportIsCycleIffFirstStepIsEdge(g, r);
  }

  /** So `find_cycle` never reports the cycle of two jobs that depend on each other. */
  method ReportTwoJobs(a: JobId, b: JobId) returns (r: seq<JobId>)
    requires a != b
    ensures (r == [a, a] || r == [b, b]) && !IsCycle(map[a := {b}, b := {a}], r)
    ensures IsCycle(map[a := {b}, b := {a}], [a, b, a])
  {
    var g: Graph := map[a := {b}, b := {a}];
    assert Dependents(g, a) == {b} && Dependents(g, b) == {a};
    assert Edge(g, a, b) && Edge(g, b, a);
    ghost var cycle := [a, b, a];
    assert IsCycle(g, cycle);
    var report := ReportCycle(g, g);
    r := report.value;
    TwoJobReports(a, b, r);
  }
}
