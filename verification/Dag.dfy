/** The job graph of `core/dag.py`: its mutators, its three cycle detectors and its two schedules. */
module Dags {
  import opened Wrappers
  import opened Collections
  import opened Graphs

  import opened TopologicalSorting
  import opened CycleSearch
  import opened ExecutionPlans

  datatype DagError = MissingDependency(job: JobId, dependency: JobId) | CycleDetected(path: seq<JobId>)

  // ---- the values the mutators produce

  ghost function WithNode(g: Graph, v: JobId): Graph {
    if v in g then g else g[v := {}]
  }

  ghost function WithEdges(g: Graph, us: set<JobId>, v: JobId): Graph {
    if v in g then g[v := g[v] + us] else g
  }

  ghost function WithJob(g: Graph, v: JobId, us: set<JobId>): Graph {
    var g' := WithNode(g, v);
    WithEdges(g', us * g'.Keys, v)
  }

  lemma WithNoEdges(g: Graph, v: JobId)
    requires v in g
    ensures WithEdges(g, Elements([]) * g.Keys, v) == g
  {
    assert g[v] + Elements([]) * g.Keys == g[v];
    assert g[v := g[v]] == g;
  }

  lemma WithNextEdge(g: Graph, us: seq<JobId>, i: nat, v: JobId)
    requires v in g && i < |us|
    ensures WithEdges(g, Elements(us[..i + 1]) * g.Keys, v)
         == (var before := WithEdges(g, Elements(us[..i]) * g.Keys, v);
             if us[i] in g then WithEdges(before, {us[i]}, v) else before)
  {
    ElementsOfPrefix(us, i);
    var now := Elements(us[..i]) * g.Keys;
    if us[i] in g {
      assert Elements(us[..i + 1]) * g.Keys == now + {us[i]};
      assert g[v] + now + {us[i]} == g[v] + (now + {us[i]});
    } else {
      assert Elements(us[..i + 1]) * g.Keys == now;
    }
  }

  ghost function WithoutEdge(g: Graph, u: JobId, v: JobId): Graph {
    if v in g then g[v := g[v] - {u}] else g
  }

  /** Python's `list.remove` behind a membership test: drops the first occurrence, if any. */
  function RemoveFirst(s: seq<JobId>, x: JobId): seq<JobId> {
    if s == [] then []
    else if s[0] == x then s[1..]
    else [s[0]] + RemoveFirst(s[1..], x)
  }

  lemma {:induction false} RemoveFirstContents(s: seq<JobId>, x: JobId)
    ensures Elements(s) - {x} <= Elements(RemoveFirst(s, x)) <= Elements(s)
    ensures Distinct(s) ==> Distinct(RemoveFirst(s, x)) && Elements(RemoveFirst(s, x)) == Elements(s) - {x}
  {
    if s != [] {
      assert s == [s[0]] + s[1..];
      assert Elements(s) == {s[0]} + Elements(s[1..]);
      if s[0] != x {
        RemoveFirstContents(s[1..], x);
        var r := RemoveFirst(s[1..], x);
        assert Elements([s[0]] + r) == {s[0]} + Elements(r);
        assert Distinct(s) ==> Distinct(s[1..]) && s[0] !in Elements(s[1..]);
      } else {
        assert Distinct(s) ==> s[0] !in s[1..];
      }
    }
  }

  // ---- the two adjacency maps and the jobs' own lists

  /** The graph without the dependencies that are not jobs of it. */
  ghost function Known(g: Graph): (k: Graph)
    ensures k.Keys == g.Keys && Closed(k)
    ensures Closed(g) ==> k == g
  {
    assert Closed(g) ==> forall v :: v in g ==> g[v] * g.Keys == g[v];
    map v | v in g :: g[v] * g.Keys
  }

  /** The two adjacency maps are exact mirrors and name only jobs of the graph. */
  ghost predicate Mirrored(up: Graph, down: Graph) {
    && up.Keys == down.Keys
    && Closed(up) && Closed(down)
    && (forall u, v :: Edge(up, u, v) <==> Edge(down, v, u))
  }

  /** Each job's own list names its dependencies, once each, and nothing else. */
  ghost predicate ListsExact(up: Graph, lists: map<JobId, seq<JobId>>) {
    up.Keys == lists.Keys && forall v {:trigger Lists(lists[v], up[v])} :: v in up ==> Lists(lists[v], up[v])
  }

  ghost predicate Lists(list: seq<JobId>, contents: set<JobId>) {
    Distinct(list) && Elements(list) == contents
  }

  /** The list after those of the given jobs that are known have been added one after the other. */
  function ListAddKnown(list: seq<JobId>, known: set<JobId>, us: seq<JobId>): seq<JobId> {
    if us == [] then list
    else
      var before := ListAddKnown(list, known, us[..|us| - 1]);
      if us[|us| - 1] in known then ListAdd(before, us[|us| - 1]) else before
  }

  lemma ListAddKnownNext(list: seq<JobId>, known: set<JobId>, us: seq<JobId>, i: nat)
    requires i < |us|
    ensures ListAddKnown(list, known, us[..i + 1])
         == (var before := ListAddKnown(list, known, us[..i]);
             if us[i] in known then ListAdd(before, us[i]) else before)
  {
    assert us[..i + 1][..i] == us[..i];
  }

  /** The list names what it named before and the known ones of the given jobs, still once each. */
  lemma {:induction false} ListAddKnownContents(list: seq<JobId>, known: set<JobId>, us: seq<JobId>)
    ensures Elements(ListAddKnown(list, known, us)) == Elements(list) + Elements(us) * known
    ensures Distinct(list) ==> Distinct(ListAddKnown(list, known, us))
  {
    if us == [] {
      assert Elements(us) * known == {};
    } else {
      var n := |us| - 1;
      var before := ListAddKnown(list, known, us[..n]);
      ListAddKnownContents(list, known, us[..n]);
      ElementsOfPrefix(us, n);
      assert us[..n + 1] == us;
      assert Elements(before + [us[n]]) == Elements(before) + {us[n]};
      if us[n] in known {
        assert Elements(us) * known == Elements(us[..n]) * known + {us[n]};
      } else {
        assert Elements(us) * known == Elements(us[..n]) * known;
      }
    }
  }

  lemma MirroredDependents(up: Graph, down: Graph, u: JobId)
    requires Mirrored(up, down) && u in up
    ensures down[u] == Dependents(up, u)
  {
    forall v ensures v in down[u] <==> v in Dependents(up, u) {
      assert Edge(up, u, v) <==> Edge(down, v, u);
    }
  }

  lemma NewNodeKeepsMirror(up: Graph, down: Graph, w: JobId)
    requires Mirrored(up, down) && w !in up
    ensures Mirrored(up[w := {}], down[w := {}])
  {
    var up', down' := up[w := {}], down[w := {}];
    forall a, b ensures Edge(up', a, b) <==> Edge(down', b, a) {
      assert Edge(up, a, b) <==> Edge(down, b, a);
    }
  }

  function ListAdd(list: seq<JobId>, u: JobId): seq<JobId> {
    if u in list then list else list + [u]
  }

  lemma AddKeepsMirror(up: Graph, down: Graph, u: JobId, v: JobId)
    requires Mirrored(up, down) && u in up && v in up
    ensures Mirrored(up[v := up[v] + {u}], down[u := down[u] + {v}])
  {
    var up', down' := up[v := up[v] + {u}], down[u := down[u] + {v}];
    forall a, b ensures Edge(up', a, b) <==> Edge(down', b, a) {
      assert Edge(up, a, b) <==> Edge(down, b, a);
    }
  }

  lemma RemoveKeepsMirror(up: Graph, down: Graph, u: JobId, v: JobId)
    requires Mirrored(up, down) && u in up && v in up
    ensures Mirrored(up[v := up[v] - {u}], down[u := down[u] - {v}])
  {
    var up', down' := up[v := up[v] - {u}], down[u := down[u] - {v}];
    forall a, b ensures Edge(up', a, b) <==> Edge(down', b, a) {
      assert Edge(up, a, b) <==> Edge(down, b, a);
    }
  }

  /** `add_edge` and `remove_edge` keep the jobs' own lists in step with the graph. */
  lemma AddKeepsLists(up: Graph, lists: map<JobId, seq<JobId>>, u: JobId, v: JobId)
    requires ListsExact(up, lists) && v in up
    ensures ListsExact(WithEdges(up, {u}, v), lists[v := ListAdd(lists[v], u)])
  {
    assert Lists(lists[v], up[v]);
    assert Elements(lists[v] + [u]) == Elements(lists[v]) + {u};
    assert Lists(ListAdd(lists[v], u), up[v] + {u});
    forall w | w in up && w != v ensures Lists(lists[w], up[w]) {}
  }

  lemma RemoveKeepsLists(up: Graph, lists: map<JobId, seq<JobId>>, u: JobId, v: JobId)
    requires ListsExact(up, lists) && v in up
    ensures ListsExact(WithoutEdge(up, u, v), lists[v := RemoveFirst(lists[v], u)])
  {
    assert Lists(lists[v], up[v]);
    RemoveFirstContents(lists[v], u);
    assert Lists(RemoveFirst(lists[v], u), up[v] - {u});
    forall w | w in up && w != v ensures Lists(lists[w], up[w]) {}
  }

  // ---- any sequence of mutators

  /** The mutators, on jobs whose own list is empty when they are first added. */
  datatype DagOp =
    | AddNode(job: JobId)
    | AddEdge(fromJob: JobId, toJob: JobId)
    | RemoveEdge(fromJob: JobId, toJob: JobId)
    | AddJob(job: JobId, dependencies: seq<JobId>)

  datatype DagState = DagState(graph: Graph, lists: map<JobId, seq<JobId>>)

  ghost function NodeAdded(s: DagState, v: JobId, list: seq<JobId>): DagState {
    DagState(WithNode(s.graph, v), if v in s.graph then s.lists else s.lists[v := list])
  }

  ghost function Mutated(s: DagState, op: DagOp): (r: DagState)
    requires s.graph.Keys == s.lists.Keys
    ensures r.graph.Keys == r.lists.Keys
  {
    match op
    case AddNode(v) => NodeAdded(s, v, [])
    case AddEdge(u, v) =>
      if u in s.graph && v in s.graph then
        DagState(WithEdges(s.graph, {u}, v), s.lists[v := ListAdd(s.lists[v], u)])
      else s
    case RemoveEdge(u, v) =>
      if u in s.graph && v in s.graph then
        DagState(WithoutEdge(s.graph, u, v), s.lists[v := RemoveFirst(s.lists[v], u)])
      else s
    case AddJob(v, us) =>
      var lists := NodeAdded(s, v, []).lists;
      DagState(WithJob(s.graph, v, Elements(us)), lists[v := ListAddKnown(lists[v], lists.Keys, us)])
  }

  ghost function AfterMutating(ops: seq<DagOp>): (r: DagState)
    ensures r.graph.Keys == r.lists.Keys
  {
    if ops == [] then DagState(map[], map[]) else Mutated(AfterMutating(ops[..|ops| - 1]), ops[|ops| - 1])
  }

  /** A new job keeps the lists exact exactly when its own list starts empty. */
  lemma NewNodeKeepsListsIff(s: DagState, v: JobId, list: seq<JobId>)
    requires ListsExact(s.graph, s.lists) && v !in s.graph
    ensures ListsExact(NodeAdded(s, v, list).graph, NodeAdded(s, v, list).lists) <==> list == []
  {
    var t := NodeAdded(s, v, list);
    if list != [] {
      assert list[0] in Elements(list);
      assert !Lists(t.lists[v], t.graph[v]);
    } else {
      forall w | w in t.graph ensures Lists(t.lists[w], t.graph[w]) {
        assert w != v ==> Lists(s.lists[w], s.graph[w]);
      }
    }
  }

  lemma AddJobKeepsLists(s: DagState, v: JobId, us: seq<JobId>)
    requires ListsExact(s.graph, s.lists)
    ensures var t := Mutated(s, AddJob(v, us)); ListsExact(t.graph, t.lists)
  {
    var s1, t := NodeAdded(s, v, []), Mutated(s, AddJob(v, us));
    if v !in s.graph {
      NewNodeKeepsListsIff(s, v, []);
    }
    ListAddKnownContents(s1.lists[v], s1.lists.Keys, us);
    forall w | w in t.graph ensures Lists(t.lists[w], t.graph[w]) {
      assert Lists(s1.lists[w], s1.graph[w]);
    }
  }

  /** Over every sequence of mutators each job's own list names exactly its dependencies in the graph, once each. */
  lemma {:induction false} MutatorsKeepLists(ops: seq<DagOp>)
    ensures ListsExact(AfterMutating(ops).graph, AfterMutating(ops).lists)
  {
    if ops != [] {
      var s := AfterMutating(ops[..|ops| - 1]);
      MutatorsKeepLists(ops[..|ops| - 1]);
      match ops[|ops| - 1]
      case AddNode(v) =>
        if v !in s.graph {
          NewNodeKeepsListsIff(s, v, []);
        }
      case AddEdge(u, v) =>
        if u in s.graph && v in s.graph {
          AddKeepsLists(s.graph, s.lists, u, v);
        }
      case RemoveEdge(u, v) =>
        if u in s.graph && v in s.graph {
          RemoveKeepsLists(s.graph, s.lists, u, v);
        }
      case AddJob(v, us) => AddJobKeepsLists(s, v, us);
    }
  }

  /** The job has been added by one of the operations. */
  ghost predicate Added(ops: seq<DagOp>, v: JobId) {
    exists i :: 0 <= i < |ops| && (ops[i].AddNode? || ops[i].AddJob?) && ops[i].job == v
  }

  /** The last operation about the edge added it; an edge to a job that is not there, or from one, is not added. */
  ghost predicate Linked(ops: seq<DagOp>, a: JobId, b: JobId) {
    ops != [] && (
      var before, op := ops[..|ops| - 1], ops[|ops| - 1];
      match op
      case AddNode(_) => Linked(before, a, b)
      case AddEdge(u, v) => Linked(before, a, b) || (u == a && v == b && Added(before, a) && Added(before, b))
      case RemoveEdge(u, v) => Linked(before, a, b) && !(u == a && v == b)
      case AddJob(v, us) => Linked(before, a, b) || (v == b && a in us && (a == b || Added(before, a))))
  }

  lemma AddedNext(ops: seq<DagOp>, v: JobId)
    requires ops != []
    ensures var n := |ops| - 1;
            Added(ops, v) <==> Added(ops[..n], v) || ((ops[n].AddNode? || ops[n].AddJob?) && ops[n].job == v)
  {
    var n := |ops| - 1;
    if Added(ops[..n], v) {
      var i :| 0 <= i < n && (ops[..n][i].AddNode? || ops[..n][i].AddJob?) && ops[..n][i].job == v;
      assert ops[i] == ops[..n][i];
    }
    if Added(ops, v) {
      var i :| 0 <= i < |ops| && (ops[i].AddNode? || ops[i].AddJob?) && ops[i].job == v;
      assert i < n ==> ops[..n][i] == ops[i];
    }
  }

  lemma {:induction false} JobsAreAdded(ops: seq<DagOp>, v: JobId)
    ensures v in AfterMutating(ops).graph <==> Added(ops, v)
  {
    if ops != [] {
      AddedNext(ops, v);
      JobsAreAdded(ops[..|ops| - 1], v);
    }
  }

  /** The graph has exactly the jobs added and the edges whose last mention added them. */
  lemma {:induction false} EdgesAreLinked(ops: seq<DagOp>, a: JobId, b: JobId)
    ensures a in AfterMutating(ops).graph <==> Added(ops, a)
    ensures Edge(AfterMutating(ops).graph, a, b) <==> Linked(ops, a, b)
  {
    JobsAreAdded(ops, a);
    if ops != [] {
      var before := ops[..|ops| - 1];
      EdgesAreLinked(before, a, b);
      JobsAreAdded(before, a);
      JobsAreAdded(before, b);
      if Edge(AfterMutating(before).graph, a, b) {
        EdgesClosed(before, a, b);
      }
    }
  }

  lemma {:induction false} EdgesClosed(ops: seq<DagOp>, a: JobId, b: JobId)
    requires Edge(AfterMutating(ops).graph, a, b)
    ensures a in AfterMutating(ops).graph && b in AfterMutating(ops).graph
  {
    if ops != [] {
      var before := ops[..|ops| - 1];
      if Edge(AfterMutating(before).graph, a, b) {
        EdgesClosed(before, a, b);
      }
    }
  }

  /** `add_job` gives the job exactly the known ones of the given dependencies, and changes no other edge. */
  lemma AddJobAddsKnown(g: Graph, v: JobId, us: set<JobId>, a: JobId, b: JobId)
    ensures Edge(WithJob(g, v, us), a, b) <==> Edge(g, a, b) || (b == v && a in us && (a in g || a == v))
  {}

  class DagNode {
    const jobId: JobId
    var dependencies: set<JobId>
    var dependents: set<JobId>

    constructor (jobId: JobId)
      ensures this.jobId == jobId && dependencies == {} && dependents == {}
    {
      this.jobId := jobId;
      dependencies, dependents := {}, {};
    }
  }

  class Dag {
    var nodes: map<JobId, DagNode>
    // the `depends_on` list of each job of the `jobs` dictionary
    var dependsOn: map<JobId, seq<JobId>>

    /** For each job, the jobs it depends on. */
    ghost function Graph(): Graph
      reads this`nodes, nodes.Values
    {
      map v | v in nodes :: nodes[v].dependencies
    }

    /** For each job, the jobs that depend on it. */
    ghost function Downstream(): Graph
      reads this`nodes, nodes.Values
    {
      map v | v in nodes :: nodes[v].dependents
    }

    ghost predicate Valid()
      reads this, nodes.Values
    {
      && (forall v :: v in nodes ==> nodes[v].jobId == v)
      && Mirrored(Graph(), Downstream())
      && dependsOn.Keys == nodes.Keys
    }

    /** What `validate` may be called on: dependencies that are not in the graph are still possible. */
    ghost predicate Consistent()
      reads this`nodes, nodes.Values
    {
      Mirrored(Known(Graph()), Downstream())
    }

    constructor ()
      ensures Valid() && Graph() == map[] && dependsOn == map[] && fresh(nodes.Values)
    {
      nodes, dependsOn := map[], map[];
    }

    method AddNode(job: JobId, jobDependsOn: seq<JobId>)
      requires Valid()
      modifies this
      ensures Valid() && Graph() == WithNode(old(Graph()), job) && nodes.Keys == old(nodes.Keys) + {job}
      ensures dependsOn == if job in old(nodes) then old(dependsOn) else old(dependsOn)[job := jobDependsOn]
      ensures fresh(nodes.Values - old(nodes.Values))
    {
      if job !in nodes {
        NewNodeKeepsMirror(Graph(), Downstream(), job);
        var node := new DagNode(job);
        nodes := nodes[job := node];
        dependsOn := dependsOn[job := jobDependsOn];
        assert Graph() == old(Graph())[job := {}];
        assert Downstream() == old(Downstream())[job := {}];
      }
    }

    method LinkUp(fromJob: JobId, toJob: JobId)
      requires fromJob in nodes && toJob in nodes && forall v :: v in nodes ==> nodes[v].jobId == v
      modifies nodes.Values
      ensures Graph() == old(Graph())[toJob := old(Graph())[toJob] + {fromJob}]
      ensures Downstream() == old(Downstream())[fromJob := old(Downstream())[fromJob] + {toJob}]
    {
      nodes[toJob].dependencies := nodes[toJob].dependencies + {fromJob};
      nodes[fromJob].dependents := nodes[fromJob].dependents + {toJob};
    }

    method Unlink(fromJob: JobId, toJob: JobId)
      requires fromJob in nodes && toJob in nodes && forall v :: v in nodes ==> nodes[v].jobId == v
      modifies nodes.Values
      ensures Graph() == old(Graph())[toJob := old(Graph())[toJob] - {fromJob}]
      ensures Downstream() == old(Downstream())[fromJob := old(Downstream())[fromJob] - {toJob}]
    {
      nodes[toJob].dependencies := nodes[toJob].dependencies - {fromJob};
      nodes[fromJob].dependents := nodes[fromJob].dependents - {toJob};
    }

    /** Returns false where the program raises KeyError, having changed nothing. */
    method AddEdge(fromJob: JobId, toJob: JobId) returns (found: bool)
      requires Valid()
      modifies this`dependsOn, nodes.Values
      ensures Valid() && nodes == old(nodes)
      ensures found <==> fromJob in nodes && toJob in nodes
      ensures Graph() == if found then WithEdges(old(Graph()), {fromJob}, toJob) else old(Graph())
      ensures dependsOn == if found then old(dependsOn)[toJob := ListAdd(old(dependsOn)[toJob], fromJob)]
                           else old(dependsOn)
    {
      if fromJob !in nodes || toJob !in nodes {
        return false;
      }
      AddKeepsMirror(Graph(), Downstream(), fromJob, toJob);
      LinkUp(fromJob, toJob);
      dependsOn := dependsOn[toJob := ListAdd(dependsOn[toJob], fromJob)];
      return true;
    }

    method RemoveEdge(fromJob: JobId, toJob: JobId)
      requires Valid()
      modifies this`dependsOn, nodes.Values
      ensures Valid() && nodes == old(nodes)
      ensures Graph() == if fromJob in nodes then WithoutEdge(old(Graph()), fromJob, toJob) else old(Graph())
      ensures dependsOn == if fromJob in nodes && toJob in nodes
                           then old(dependsOn)[toJob := RemoveFirst(old(dependsOn)[toJob], fromJob)]
                           else old(dependsOn)
    {
      if fromJob in nodes && toJob in nodes {
        RemoveKeepsMirror(Graph(), Downstream(), fromJob, toJob);
        Unlink(fromJob, toJob);
        dependsOn := dependsOn[toJob := RemoveFirst(dependsOn[toJob], fromJob)];
      }
    }

    /** Dependencies that are not in the graph are skipped without an error. */
    method AddJob(job: JobId, jobDependsOn: seq<JobId>, dependencies: seq<JobId>)
      requires Valid()
      modifies this, nodes.Values
      ensures Valid()
      ensures Graph() == WithJob(old(Graph()), job, Elements(dependencies))
      ensures var lists := if job in old(nodes) then old(dependsOn) else old(dependsOn)[job := jobDependsOn];
              dependsOn == lists[job := ListAddKnown(lists[job], nodes.Keys, dependencies)]
      ensures fresh(nodes.Values - old(nodes.Values))
    {
      AddNode(job, jobDependsOn);
      LinkKnown(job, dependencies);
    }

    /** The loop of `add_job`. */
    method LinkKnown(job: JobId, dependencies: seq<JobId>)
      requires Valid() && job in nodes
      modifies this`dependsOn, nodes.Values
      ensures Valid() && nodes == old(nodes)
      ensures Graph() == WithEdges(old(Graph()), Elements(dependencies) * old(Graph()).Keys, job)
      ensures dependsOn == old(dependsOn)[job := ListAddKnown(old(dependsOn)[job], nodes.Keys, dependencies)]
    {
      ghost var g, lists := Graph(), dependsOn;
      WithNoEdges(g, job);
      for i := 0 to |dependencies|
        invariant Valid() && nodes == old(nodes)
        invariant Graph() == WithEdges(g, Elements(dependencies[..i]) * g.Keys, job)
        invariant dependsOn == lists[job := ListAddKnown(lists[job], nodes.Keys, dependencies[..i])]
      {
        WithNextEdge(g, dependencies, i, job);
        ListAddKnownNext(lists[job], nodes.Keys, dependencies, i);
        ghost var list := ListAddKnown(lists[job], nodes.Keys, dependencies[..i]);
        UpdateTwice(lists, job, list, ListAdd(list, dependencies[i]));
        if dependencies[i] in nodes {
          var _ := AddEdge(dependencies[i], job);
        }
      }
      assert dependencies[..|dependencies|] == dependencies;
    }

    /** Reads off both adjacency maps: what the algorithms below look at. */
    method Adjacency() returns (g: Graph, down: Graph)
      requires Consistent()
      ensures g == Known(Graph()) && IsAdjacency(g, down)
    {
      g := map v | v in nodes :: nodes[v].dependencies * nodes.Keys;
      down := map v | v in nodes :: nodes[v].dependents;
      assert nodes.Keys == Graph().Keys;
      assert g == Known(Graph()) && down == Downstream();
      forall u | u in g ensures down[u] == Dependents(g, u) {
        MirroredDependents(g, down, u);
      }
    }

    method TopologicalSort() returns (r: SortResult)
      requires Valid()
      ensures r.Sorted? <==> !Cyclic(Graph())
      ensures r.Sorted? ==> TopologicalOrder(Graph(), r.jobs)
      ensures r.SortCyclicDependency? ==> forall v :: v in r.remaining <==> v in Graph() && BehindCycle(Graph(), v)
    {
      var g, down := Adjacency();
      r := KahnSort(g, down);
    }

    method HasCycle() returns (found: bool)
      requires Consistent()
      ensures found <==> Cyclic(Known(Graph()))
    {
      var g, down := Adjacency();
      found := SearchForCycle(g, down);
    }

    method FindCycle() returns (r: Option<seq<JobId>>)
      requires Consistent()
      ensures r.None? <==> !Cyclic(Known(Graph()))
      ensures r.Some? ==> CycleReport(Known(Graph()), r.value)
    {
      var g, down := Adjacency();
      r := ReportCycle(g, down);
    }

    method GetExecutionPlan() returns (r: PlanResult)
      requires Valid()
      ensures r.Plan? <==> !Cyclic(Graph())
      ensures r.Plan? ==> IsPlan(Graph(), r.levels)
    {
      var g, down := Adjacency();
      ghost var stuck;
      r, stuck := PlanLevels(g, down);
      if r.PlanCyclicDependency? {
        ghost var v :| v in stuck;
        StuckIsCyclic(g, stuck, v);
      }
    }

    /** Returns the list of errors it raises with; an empty list stands for the result True. */
    method Validate() returns (errors: seq<DagError>)
      requires Consistent()
      ensures Distinct(errors)
      ensures forall v, d :: MissingDependency(v, d) in errors <==> Edge(Graph(), d, v) && d !in Graph()
      ensures forall i :: 0 <= i < |errors| && errors[i].CycleDetected? ==> i == |errors| - 1
      ensures forall p :: CycleDetected(p) in errors ==> CycleReport(Known(Graph()), p)
      ensures Cyclic(Known(Graph())) <==> exists p :: CycleDetected(p) in errors
    {
      var missing := MissingDependencies();
      var cycle := CycleErrors();
      errors := missing + cycle;
      OneCycleError(missing, cycle);
    }

    /** The second check of `validate`: one error with the reported cycle, if there is one. */
    method CycleErrors() returns (errors: seq<DagError>)
      requires Consistent()
      ensures |errors| == if Cyclic(Known(Graph())) then 1 else 0
      ensures forall e :: e in errors ==> e.CycleDetected? && CycleReport(Known(Graph()), e.path)
    {
      errors := [];
      var found := HasCycle();
      if found {
        var cycle := FindCycle();
        errors := [CycleDetected(cycle.value)];
      }
    }

    method MissingDependencies() returns (errors: seq<DagError>)
      ensures Distinct(errors)
      ensures forall e :: e in errors <==>
                e.MissingDependency? && Edge(Graph(), e.dependency, e.job) && e.dependency !in Graph()
    {
      errors := [];
      var g: Graph := map v | v in nodes :: nodes[v].dependencies;
      assert g == Graph();
      var rest := g.Keys;
      while rest != {}
        invariant rest <= g.Keys && Distinct(errors)
        invariant forall e :: e in errors <==>
                    e.MissingDependency? && e.job !in rest && Edge(g, e.dependency, e.job) && e.dependency !in g
        decreases rest
      {
        var v :| v in rest;
        var deps := g[v];
        while deps != {}
          invariant deps <= g[v] && Distinct(errors)
          invariant forall e :: e in errors <==>
                      && e.MissingDependency?
                      && (e.job !in rest || (e.job == v && e.dependency !in deps))
                      && Edge(g, e.dependency, e.job) && e.dependency !in g
          decreases deps
        {
          var d :| d in deps;
          if d !in g {
            errors := errors + [MissingDependency(v, d)];
          }
          deps := deps - {d};
        }
        rest := rest - {v};
      }
    }
  }

  lemma OneCycleError(missing: seq<DagError>, cycle: seq<DagError>)
    requires Distinct(missing) && forall e :: e in missing ==> e.MissingDependency?
    requires |cycle| <= 1 && forall e :: e in cycle ==> e.CycleDetected?
    ensures var errors := missing + cycle;
            && Distinct(errors)
            && (forall e :: e in errors <==> e in missing || e in cycle)
            && (forall i :: 0 <= i < |errors| && errors[i].CycleDetected? ==> i == |errors| - 1)
            && (|cycle| == 1 <==> exists p :: CycleDetected(p) in errors)
  {
    forall i | 0 <= i < |missing| ensures missing[i].MissingDependency? {
      assert missing[i] in missing;
    }
    if |cycle| == 1 {
      assert cycle[0] in cycle;
      assert CycleDetected(cycle[0].path) in missing + cycle;
    }
  }

  lemma UpdateTwice(m: map<JobId, seq<JobId>>, v: JobId, a: seq<JobId>, b: seq<JobId>)
    ensures m[v := a][v := b] == m[v := b]
  {}

  // ---- DAGBuilder

  /** The string by which later jobs refer to a job. */
  datatype JobKey = JobKey(text: string)

  /** A new job that depends only on jobs already in the graph closes no cycle. */
  lemma FreshJobKeepsAcyclic(g: Graph, v: JobId, us: set<JobId>)
    requires Closed(g) && v !in g && us <= g.Keys && !Cyclic(g)
    ensures !Cyclic(g[v := us])
  {
    var g' := g[v := us];
    forall p | IsCycle(g', p) ensures false {
      var last := |p| - 1;
      forall i | 0 <= i < last ensures p[i] != v {
        assert Edge(g', p[i], p[i + 1]);
      }
      forall i, j | 0 <= i < |p| && j == i + 1 < |p| ensures Edge(g, p[i], p[j]) {
        assert Edge(g', p[i], p[j]);
      }
      assert IsCycle(g, p);
    }
  }

  lemma SelfLoopIsCyclic(g: Graph, v: JobId)
    requires Edge(g, v, v)
    ensures Cyclic(g)
  {
    assert IsCycle(g, [v, v]);
  }

  /** The number of leading keys that are known: where `add_job` stops with a ValueError, if anywhere. */
  ghost function KnownPrefix(keys: seq<JobKey>, jobIds: map<JobKey, JobId>): (n: nat)
    ensures n <= |keys|
    ensures forall i :: 0 <= i < n ==> keys[i] in jobIds
    ensures n < |keys| ==> keys[n] !in jobIds
  {
    if keys == [] || keys[0] !in jobIds then 0 else 1 + KnownPrefix(keys[1..], jobIds)
  }

  lemma KnownPrefixIs(keys: seq<JobKey>, jobIds: map<JobKey, JobId>, n: nat)
    requires n <= |keys| && forall j :: 0 <= j < n ==> keys[j] in jobIds
    requires n < |keys| ==> keys[n] !in jobIds
    ensures KnownPrefix(keys, jobIds) == n
  {
    var m := KnownPrefix(keys, jobIds);
    assert !(m < n) && !(n < m);
  }

  ghost function Resolve(keys: seq<JobKey>, jobIds: map<JobKey, JobId>): set<JobId> {
    set k | k in keys && k in jobIds :: jobIds[k]
  }

  /** The jobs the keys stand for, one by one. */
  ghost function InOrder(keys: seq<JobKey>, jobIds: map<JobKey, JobId>): (r: seq<JobId>)
    requires forall i :: 0 <= i < |keys| ==> keys[i] in jobIds
    ensures |r| == |keys| && forall i :: 0 <= i < |keys| ==> r[i] == jobIds[keys[i]]
  {
    if keys == [] then [] else InOrder(keys[..|keys| - 1], jobIds) + [jobIds[keys[|keys| - 1]]]
  }

  lemma InOrderNext(keys: seq<JobKey>, i: nat, jobIds: map<JobKey, JobId>)
    requires i < |keys| && forall j :: 0 <= j <= i ==> keys[j] in jobIds
    ensures InOrder(keys[..i + 1], jobIds)[..i] == InOrder(keys[..i], jobIds)
    ensures InOrder(keys[..i + 1], jobIds)[i] == jobIds[keys[i]]
  {}

  ghost predicate Points(jobIds: map<JobKey, JobId>, jobs: set<JobId>) {
    forall k :: k in jobIds ==> jobIds[k] in jobs
  }

  class DagBuilder {
    const dag: Dag
    var jobIds: map<JobKey, JobId>

    ghost predicate Valid()
      reads this, dag, dag.nodes.Values
    {
      dag.Valid() && Points(jobIds, dag.nodes.Keys)
    }

    constructor ()
      ensures Valid() && dag.Graph() == map[] && jobIds == map[] && fresh(dag) && fresh(dag.nodes.Values)
    {
      dag := new Dag();
      jobIds := map[];
    }

    /** Returns false where the program raises ValueError; the job and the edges added before that stay. */
    method AddJob(job: JobId, jobDependsOn: seq<JobId>, key: JobKey, dependsOn: seq<JobKey>) returns (ok: bool)
      requires Valid()
      modifies this, dag, dag.nodes.Values
      ensures Valid() && jobIds == old(jobIds)[key := job]
      ensures fresh(dag.nodes.Values - old(dag.nodes.Values))
      ensures var n := KnownPrefix(dependsOn, jobIds);
              var lists := if job in old(dag.nodes) then old(dag.dependsOn)
                           else old(dag.dependsOn)[job := jobDependsOn];
              && (ok <==> n == |dependsOn|)
              && dag.Graph() == WithJob(old(dag.Graph()), job, Resolve(dependsOn[..n], jobIds))
              && job in lists
              && dag.dependsOn == lists[job :=
                   ListAddKnown(lists[job], dag.nodes.Keys, InOrder(dependsOn[..n], jobIds))]
    {
      Register(job, jobDependsOn, key);
      ghost var g := dag.Graph();
      assert dag.nodes.Keys == g.Keys;
      ok := LinkDependencies(job, jobIds, dependsOn);
      ResolvedInGraph(g, dependsOn[..KnownPrefix(dependsOn, jobIds)], jobIds);
    }

    method Register(job: JobId, jobDependsOn: seq<JobId>, key: JobKey)
      requires Valid()
      modifies this, dag
      ensures Valid() && jobIds == old(jobIds)[key := job] && job in dag.nodes
      ensures fresh(dag.nodes.Values - old(dag.nodes.Values))
      ensures dag.Graph() == WithNode(old(dag.Graph()), job)
      ensures dag.dependsOn ==
              if job in old(dag.nodes) then old(dag.dependsOn) else old(dag.dependsOn)[job := jobDependsOn]
    {
      ghost var g := dag.Graph();
      jobIds := jobIds[key := job];
      assert dag.Graph() == g;
      dag.AddNode(job, jobDependsOn);
    }

    /** The loop of the builder's `add_job`: one edge for each key, up to the first unknown one. */
    method LinkDependencies(job: JobId, ids: map<JobKey, JobId>, dependsOn: seq<JobKey>) returns (ok: bool)
      requires dag.Valid() && job in dag.nodes && Points(ids, dag.nodes.Keys)
      modifies dag`dependsOn, dag.nodes.Values
      ensures dag.Valid() && dag.nodes == old(dag.nodes)
      ensures var n := KnownPrefix(dependsOn, ids);
              && (ok <==> n == |dependsOn|)
              && dag.Graph() == WithEdges(old(dag.Graph()), Resolve(dependsOn[..n], ids), job)
              && dag.dependsOn == old(dag.dependsOn)[job :=
                   ListAddKnown(old(dag.dependsOn)[job], dag.nodes.Keys, InOrder(dependsOn[..n], ids))]
    {
      ghost var g, lists := dag.Graph(), dag.dependsOn;
      var i := 0;
      ResolveNone(g, dependsOn, ids, job);
      while i < |dependsOn|
        invariant 0 <= i <= |dependsOn| && forall j :: 0 <= j < i ==> dependsOn[j] in ids
        invariant dag.Valid() && dag.nodes == old(dag.nodes)
        invariant dag.Graph() == WithEdges(g, Resolve(dependsOn[..i], ids), job)
        invariant dag.dependsOn == lists[job :=
                    ListAddKnown(lists[job], dag.nodes.Keys, InOrder(dependsOn[..i], ids))]
      {
        if dependsOn[i] !in ids {
          KnownPrefixIs(dependsOn, ids, i);
          return false;
        }
        LinkNext(dependsOn[i], dependsOn, i, ids, job, g, lists);
        i := i + 1;
      }
      KnownPrefixIs(dependsOn, ids, i);
      return true;
    }

    method LinkNext(key: JobKey, ghost keys: seq<JobKey>, ghost i: nat, ids: map<JobKey, JobId>, job: JobId,
                    ghost g: Graph, ghost lists: map<JobId, seq<JobId>>)
      requires dag.Valid() && job in dag.nodes && Points(ids, dag.nodes.Keys) && job in g && job in lists
      requires i < |keys| && key == keys[i] && forall j :: 0 <= j <= i ==> keys[j] in ids
      requires dag.Graph() == WithEdges(g, Resolve(keys[..i], ids), job)
      requires dag.dependsOn == lists[job := ListAddKnown(lists[job], dag.nodes.Keys, InOrder(keys[..i], ids))]
      modifies dag`dependsOn, dag.nodes.Values
      ensures dag.Valid() && dag.nodes == old(dag.nodes)
      ensures dag.Graph() == WithEdges(g, Resolve(keys[..i + 1], ids), job)
      ensures dag.dependsOn == lists[job := ListAddKnown(lists[job], dag.nodes.Keys, InOrder(keys[..i + 1], ids))]
    {
      NextList(lists, dag.nodes.Keys, keys, i, ids, job);
      ResolveNext(g, keys, i, ids, job);
      var found := dag.AddEdge(ids[key], job);
    }

    /** Returns None where `validate` raises. */
    method Build() returns (r: Option<Dag>)
      requires Valid()
      ensures r == if Cyclic(dag.Graph()) then None else Some(dag)
    {
      var errors := dag.Validate();
      if errors != [] {
        assert errors[0] in errors;
        match errors[0] {
          case MissingDependency(v, d) => assert false;
          case CycleDetected(p) => assert CycleDetected(p) in errors;
        }
      }
      return if errors == [] then Some(dag) else None;
    }
  }

  lemma NextList(lists: map<JobId, seq<JobId>>, known: set<JobId>, keys: seq<JobKey>, i: nat,
                 jobIds: map<JobKey, JobId>, job: JobId)
    requires job in lists && i < |keys| && (forall j :: 0 <= j <= i ==> keys[j] in jobIds) && jobIds[keys[i]] in known
    ensures var before := lists[job := ListAddKnown(lists[job], known, InOrder(keys[..i], jobIds))];
            before[job := ListAdd(before[job], jobIds[keys[i]])] ==
            lists[job := ListAddKnown(lists[job], known, InOrder(keys[..i + 1], jobIds))]
  {
    var next := InOrder(keys[..i + 1], jobIds);
    InOrderNext(keys, i, jobIds);
    ListAddKnownNext(lists[job], known, next, i);
    assert next[..i + 1] == next;
    var list := ListAddKnown(lists[job], known, InOrder(keys[..i], jobIds));
    UpdateTwice(lists, job, list, ListAdd(list, jobIds[keys[i]]));
  }

  lemma ResolveNone(g: Graph, keys: seq<JobKey>, jobIds: map<JobKey, JobId>, v: JobId)
    requires v in g
    ensures WithEdges(g, Resolve(keys[..0], jobIds), v) == g
  {
    assert g[v] + Resolve(keys[..0], jobIds) == g[v];
  }

  lemma ResolveNext(g: Graph, keys: seq<JobKey>, i: nat, jobIds: map<JobKey, JobId>, v: JobId)
    requires i < |keys| && keys[i] in jobIds && v in g
    ensures WithEdges(WithEdges(g, Resolve(keys[..i], jobIds), v), {jobIds[keys[i]]}, v)
         == WithEdges(g, Resolve(keys[..i + 1], jobIds), v)
  {
    assert keys[..i + 1] == keys[..i] + [keys[i]];
    var us := Resolve(keys[..i], jobIds);
    assert Resolve(keys[..i + 1], jobIds) == us + {jobIds[keys[i]]};
    assert g[v] + us + {jobIds[keys[i]]} == g[v] + (us + {jobIds[keys[i]]});
  }

  lemma ResolvedInGraph(g: Graph, keys: seq<JobKey>, jobIds: map<JobKey, JobId>)
    requires Points(jobIds, g.Keys)
    ensures Resolve(keys, jobIds) * g.Keys == Resolve(keys, jobIds)
  {}

  /** Adding a job the graph does not have yet creates a cycle exactly when the job names its own key. */
  lemma BuilderStaysAcyclic(g: Graph, jobIds: map<JobKey, JobId>, job: JobId, key: JobKey, keys: seq<JobKey>)
    requires Closed(g) && Points(jobIds, g.Keys) && job !in g && !Cyclic(g)
    ensures var ids := jobIds[key := job];
            Cyclic(WithJob(g, job, Resolve(keys, ids))) <==> key in keys
  {
    var ids := jobIds[key := job];
    var us := Resolve(keys, ids);
    var g' := WithJob(g, job, us);
    if key in keys {
      assert ids[key] in us;
      SelfLoopIsCyclic(g', job);
    } else {
      assert us <= g.Keys;
      assert g'[job] == us && forall v :: v in g ==> g'[v] == g[v];
      FreshJobKeepsAcyclic(g, job, us);
      assert g' == g[job := us];
    }
  }

  /** One call of the builder's `add_job`. */
  datatype Addition = Addition(job: JobId, key: JobKey, dependsOn: seq<JobKey>)

  datatype Built = Built(graph: Graph, jobIds: map<JobKey, JobId>)

  /** What the builder holds after the calls: a call stops at the first unknown key, but keeps what it did before. */
  ghost function AfterAdding(calls: seq<Addition>): Built {
    if calls == [] then Built(map[], map[])
    else
      var before, c := AfterAdding(calls[..|calls| - 1]), calls[|calls| - 1];
      var ids := before.jobIds[c.key := c.job];
      Built(WithJob(before.graph, c.job, Resolve(c.dependsOn[..KnownPrefix(c.dependsOn, ids)], ids)), ids)
  }

  /** Jobs are added once each and never name their own key. */
  ghost predicate OnlyFreshJobs(calls: seq<Addition>) {
    && (forall i, j :: 0 <= i < j < |calls| ==> calls[i].job != calls[j].job)
    && (forall i :: 0 <= i < |calls| ==> calls[i].key !in calls[i].dependsOn)
  }

  /** Whatever is added in this way, the graph stays closed and acyclic, so that `build` accepts it. */
  lemma {:induction false} BuilderAlwaysAcyclic(calls: seq<Addition>)
    requires OnlyFreshJobs(calls)
    ensures var b := AfterAdding(calls);
            && Closed(b.graph) && Points(b.jobIds, b.graph.Keys) && !Cyclic(b.graph)
            && (forall v :: v in b.graph <==> exists i :: 0 <= i < |calls| && calls[i].job == v)
  {
    if calls == [] {
      assert Ranked(map[], map[]);
      RankedIsAcyclic(map[], map[]);
    } else {
      var n := |calls| - 1;
      var before, c := AfterAdding(calls[..n]), calls[n];
      BuilderAlwaysAcyclic(calls[..n]);
      assert forall i :: 0 <= i < n ==> calls[..n][i] == calls[i];
      assert c.job !in before.graph;
      var ids := before.jobIds[c.key := c.job];
      var known := c.dependsOn[..KnownPrefix(c.dependsOn, ids)];
      BuilderStaysAcyclic(before.graph, before.jobIds, c.job, c.key, known);
      assert Points(ids, before.graph.Keys + {c.job});
      assert AfterAdding(calls).graph.Keys == before.graph.Keys + {c.job};
    }
  }
}
