/** Finite sets and sequences: the small facts the graph algorithms need. */
module Collections {
  ghost predicate Distinct<T>(s: seq<T>) {
    forall i, j :: 0 <= i < j < |s| ==> s[i] != s[j]
  }

  ghost function Elements<T>(s: seq<T>): set<T> {
    set x | x in s
  }

  lemma {:induction false} DistinctCardinality<T>(s: seq<T>)
    requires Distinct(s)
    ensures |Elements(s)| == |s|
  {
    if s != [] {
      var last := |s| - 1;
      DistinctCardinality(s[..last]);
      assert s == s[..last] + [s[last]];
      assert Elements(s) == Elements(s[..last]) + {s[last]};
      assert s[last] !in s[..last];
    }
  }

  lemma ElementsOfPrefix<T>(s: seq<T>, i: nat)
    requires i < |s|
    ensures Elements(s[..i + 1]) == Elements(s[..i]) + {s[i]}
  {
    assert s[..i + 1] == s[..i] + [s[i]];
  }

  /** The cardinality of a set, for definitions that many proofs unfold and few need to reason about. */
  ghost function Count<T>(s: set<T>): nat {
    if s == {} then 0
    else
      var x :| x in s;
      1 + Count(s - {x})
  }

  lemma {:induction false} CountIsCardinality<T>(s: set<T>)
    ensures Count(s) == |s|
  {
    if s != {} {
      var x :| x in s && Count(s) == 1 + Count(s - {x});
      CountIsCardinality(s - {x});
    }
  }

  lemma SubsetCardinality<T>(a: set<T>, b: set<T>)
    requires a <= b
    ensures |a| <= |b|
    ensures |a| == |b| ==> a == b
  {
    assert b == a + (b - a);
  }

  /** A distinct sequence over `b` is no longer than `b`, and exhausts `b` if equally long. */
  lemma DistinctWithin<T>(s: seq<T>, b: set<T>)
    requires Distinct(s) && Elements(s) <= b
    ensures |s| <= |b|
    ensures |s| == |b| ==> Elements(s) == b
  {
    DistinctCardinality(s);
    SubsetCardinality(Elements(s), b);
  }

  lemma SomethingLeftOut<T>(s: seq<T>, b: set<T>)
    requires Distinct(s) && Elements(s) <= b && |s| != |b|
    ensures b - Elements(s) != {}
  {
    DistinctCardinality(s);
    assert b == Elements(s) + (b - Elements(s));
  }

  lemma DropFromUnion<T>(a: set<T>, b: set<T>, x: T)
    requires x in b && x !in a
    ensures a + b - {x} == a + (b - {x})
  {}

  lemma MoveOver<T>(rest: set<T>, done: set<T>, x: T)
    requires x in rest
    ensures (rest - {x}) + (done + {x}) == rest + done
  {}

  lemma DropOne<T>(s: set<T>, x: T)
    requires x in s
    ensures |s - {x}| == |s| - 1
  {}

  /** Lists a set in an arbitrary order, as iterating over a Python set or dict does. */
  method Enumerate<T(==)>(b: set<T>) returns (s: seq<T>)
    ensures Distinct(s) && Elements(s) == b
  {
    s := [];
    var rest := b;
    while rest != {}
      invariant rest <= b
      invariant Distinct(s) && Elements(s) == b - rest
      decreases |rest|
    {
      var x :| x in rest;
      assert x !in Elements(s);
      assert Elements(s + [x]) == Elements(s) + {x};
      s := s + [x];
      rest := rest - {x};
    }
  }
}

/** Dependency graphs as values, and the theory of their chains and cycles. */
module Graphs {
  import opened Collections

  /** The UUID of a job, which is only ever compared for equality. */
  datatype JobId = JobId(uuid: nat)

  /** Maps every job to the set of jobs it depends on. */
  type Graph = map<JobId, set<JobId>>

  ghost predicate Closed(g: Graph) {
    forall v :: v in g ==> g[v] <= g.Keys
  }

  /** `v` depends on `u`. */
  ghost predicate Edge(g: Graph, u: JobId, v: JobId) {
    v in g && u in g[v]
  }

  ghost function Dependents(g: Graph, u: JobId): set<JobId> {
    set v | v in g && u in g[v]
  }

  /** Each job of the chain depends on the one before it. */
  ghost predicate IsChain(g: Graph, p: seq<JobId>) {
    && (forall i :: 0 <= i < |p| ==> p[i] in g)
    && (forall i, j {:trigger Edge(g, p[i], p[j])} :: 0 <= i < |p| && j == i + 1 < |p| ==> Edge(g, p[i], p[j]))
  }

  ghost predicate IsCycle(g: Graph, p: seq<JobId>) {
    |p| >= 2 && IsChain(g, p) && p[0] == p[|p| - 1]
  }

  ghost predicate Cyclic(g: Graph) {
    exists p :: IsCycle(g, p)
  }

  ghost predicate OnCycle(g: Graph, v: JobId) {
    exists p :: IsCycle(g, p) && p[0] == v
  }

  ghost predicate ChainBetween(g: Graph, p: seq<JobId>, u: JobId, v: JobId) {
    |p| >= 1 && IsChain(g, p) && p[0] == u && p[|p| - 1] == v
  }

  /** `u` is `v` itself or an ancestor of it. */
  ghost predicate Reaches(g: Graph, u: JobId, v: JobId) {
    exists p :: ChainBetween(g, p, u, v)
  }

  ghost predicate ProperAncestor(g: Graph, u: JobId, v: JobId) {
    exists p :: ChainBetween(g, p, u, v) && |p| >= 2
  }

  /** A numbering of the jobs that strictly grows along every edge. */
  ghost predicate Ranked(g: Graph, rank: map<JobId, int>) {
    && g.Keys <= rank.Keys
    && (forall u, v :: Edge(g, u, v) && u in rank ==> rank[u] < rank[v])
  }

  /** Every job once, and each after all the jobs it depends on. */
  ghost predicate TopologicalOrder(g: Graph, s: seq<JobId>) {
    Distinct(s) && Elements(s) == g.Keys && DependenciesFirst(g, s)
  }

  ghost predicate DependenciesFirst(g: Graph, s: seq<JobId>) {
    forall i :: 0 <= i < |s| ==> s[i] in g && g[s[i]] <= Elements(s[..i])
  }

  // ---- chains

  lemma ChainConcat(g: Graph, p: seq<JobId>, q: seq<JobId>)
    requires IsChain(g, p) && IsChain(g, q)
    requires p != [] && q != [] ==> Edge(g, p[|p| - 1], q[0])
    ensures IsChain(g, p + q)
  {
    var r := p + q;
    forall i, j | 0 <= i < |r| && j == i + 1 < |r| ensures Edge(g, r[i], r[j]) {
      if j < |p| {
        assert Edge(g, p[i], p[j]);
      } else if i >= |p| {
        assert Edge(g, q[i - |p|], q[j - |p|]);
      }
    }
  }

  lemma ChainSlice(g: Graph, p: seq<JobId>, lo: nat, hi: nat)
    requires IsChain(g, p) && lo <= hi <= |p|
    ensures IsChain(g, p[lo..hi])
  {
    var r := p[lo..hi];
    forall i, j | 0 <= i < |r| && j == i + 1 < |r| ensures Edge(g, r[i], r[j]) {
      assert Edge(g, p[lo + i], p[lo + j]);
    }
  }

  lemma {:induction false} ChainRank(g: Graph, rank: map<JobId, int>, p: seq<JobId>)
    requires Ranked(g, rank) && IsChain(g, p) && p != []
    ensures rank[p[|p| - 1]] >= rank[p[0]] + |p| - 1
  {
    if |p| > 1 {
      var n := |p| - 1;
      ChainSlice(g, p, 0, n);
      ChainRank(g, rank, p[..n]);
      assert Edge(g, p[n - 1], p[n]);
    }
  }

  lemma RankedIsAcyclic(g: Graph, rank: map<JobId, int>)
    requires Ranked(g, rank)
    ensures !Cyclic(g)
  {
    forall p | IsCycle(g, p) ensures false {
      ChainRank(g, rank, p);
    }
  }

  ghost function Position(s: seq<JobId>, v: JobId): (i: nat)
    requires v in s
    ensures i < |s| && s[i] == v
  {
    var i: nat :| i < |s| && s[i] == v;
    i
  }

  ghost function PositionRank(s: seq<JobId>): (rank: map<JobId, int>) {
    map v | v in Elements(s) :: Position(s, v)
  }

  lemma OrderIsRank(g: Graph, s: seq<JobId>)
    requires TopologicalOrder(g, s)
    ensures Ranked(g, PositionRank(s))
  {
    var rank := PositionRank(s);
    forall u, v | Edge(g, u, v) && u in rank ensures rank[u] < rank[v] {
      assert v in Elements(s);
      var j := Position(s, v);
      assert u in Elements(s[..j]);
      var i :| 0 <= i < j && s[i] == u;
      assert Position(s, u) == i;
    }
  }

  lemma TopologicalOrderIsAcyclic(g: Graph, s: seq<JobId>)
    requires TopologicalOrder(g, s)
    ensures !Cyclic(g)
  {
    OrderIsRank(g, s);
    RankedIsAcyclic(g, PositionRank(s));
  }

  // ---- finding a cycle

  ghost predicate Blocked(g: Graph, jobs: set<JobId>, v: JobId) {
    exists u :: Edge(g, u, v) && u in jobs
  }

  /** Every job of `stuck` waits for another job of `stuck`. */
  ghost predicate Stuck(g: Graph, stuck: set<JobId>) {
    stuck <= g.Keys && forall v {:trigger Blocked(g, stuck, v)} :: v in stuck ==> Blocked(g, stuck, v)
  }

  /** A path closed by an edge from its last job back to its `k`-th is a cycle. */
  lemma CloseCycle(g: Graph, path: seq<JobId>, k: nat)
    requires IsChain(g, path) && k < |path| && Edge(g, path[|path| - 1], path[k])
    ensures Cyclic(g) && OnCycle(g, path[k])
  {
    ChainSlice(g, path, k, |path|);
    ChainConcat(g, path[k..], [path[k]]);
    assert IsCycle(g, path[k..] + [path[k]]);
  }

  /** Walking backwards inside a stuck set must come back to a job already seen. */
  lemma {:induction false} StuckReachedFromCycle(g: Graph, stuck: set<JobId>, path: seq<JobId>, v: JobId)
    returns (c: JobId)
    requires Stuck(g, stuck)
    requires Distinct(path) && Elements(path) <= stuck
    requires path != [] && ChainBetween(g, path, path[0], v)
    ensures c in stuck && OnCycle(g, c) && Reaches(g, c, v)
    decreases |stuck| - |path|
  {
    DistinctWithin(path, stuck);
    var u := path[0];
    assert u in Elements(path);
    assert Blocked(g, stuck, u);
    var d :| Edge(g, d, u) && d in stuck;
    assert Edge(g, d, u);
    ChainConcat(g, [d], path);
    var longer := [d] + path;
    if d in path {
      var k :| 0 <= k < |path| && path[k] == d;
      ChainSlice(g, longer, 0, k + 2);
      assert IsCycle(g, longer[0..k + 2]);
      assert ChainBetween(g, longer, d, v);
      c := d;
    } else {
      assert Elements(longer) == Elements(path) + {d};
      DistinctWithin(longer, stuck);
      c := StuckReachedFromCycle(g, stuck, longer, v);
    }
  }

  lemma StuckIsCyclic(g: Graph, stuck: set<JobId>, v: JobId)
    requires Stuck(g, stuck) && v in stuck
    ensures Cyclic(g)
    ensures exists c :: OnCycle(g, c) && Reaches(g, c, v)
  {
    var c := StuckReachedFromCycle(g, stuck, [v], v);
  }

  /** Nothing behind a job of a dependency-first prefix lies on a cycle. */
  lemma PrefixNotBehindCycle(g: Graph, s: seq<JobId>, c: JobId, v: JobId)
    requires DependenciesFirst(g, s) && Distinct(s) && v in s && OnCycle(g, c)
    ensures !Reaches(g, c, v)
  {
    forall p | ChainBetween(g, p, c, v) ensures false {
      ChainStaysInPrefix(g, s, p);
      var q :| IsCycle(g, q) && q[0] == c;
      ChainStaysInPrefix(g, s, q);
    }
  }

  /** A chain that ends in a dependency-first prefix lies in it, at growing positions. */
  lemma {:induction false} ChainStaysInPrefix(g: Graph, s: seq<JobId>, p: seq<JobId>)
    requires DependenciesFirst(g, s) && Distinct(s) && p != [] && IsChain(g, p) && p[|p| - 1] in s
    ensures p[0] in s
    ensures |p| >= 2 ==> p[0] != p[|p| - 1]
    ensures Position(s, p[0]) <= Position(s, p[|p| - 1])
    ensures |p| >= 2 ==> Position(s, p[0]) < Position(s, p[|p| - 1])
    decreases |p|
  {
    if |p| > 1 {
      var n := |p| - 1;
      var j := Position(s, p[n]);
      assert Edge(g, p[n - 1], p[n]);
      assert p[n - 1] in Elements(s[..j]);
      var i :| 0 <= i < j && s[i] == p[n - 1];
      assert Position(s, p[n - 1]) == i;
      ChainSlice(g, p, 0, n);
      ChainStaysInPrefix(g, s, p[..n]);
    }
  }

  /** `g` gives every job's dependencies, `down` its dependents. */
  ghost predicate IsAdjacency(g: Graph, down: Graph) {
    Closed(g) && down.Keys == g.Keys && forall u :: u in g ==> down[u] == Dependents(g, u)
  }
}
