/** The Redlock protocol of `locking/redis_lock.py`: clients, nodes and time, interleaved. */
module RedlockProtocol {
  import opened Collections
  import opened Wrappers

  datatype Owner = Owner(name: string)

  /** The key on a node: it may expire at any moment from `safeUntil` on. */
  datatype Key = Key(owner: Owner, safeUntil: real)

  type Node = Option<Key>

  /**
   * The number of nodes and the factor of the drift margin; how much earlier than asked a node may drop a key, as a
   * rate of the time-to-live and a constant; and how long a client may take between reading the clock for the
   * validity time and stamping the expiry. Times are in milliseconds.
   */
  datatype Config = Config(n: nat, driftFactor: real, nodeRate: real, nodeLag: real, gap: real)

  function Quorum(n: nat): nat {
    n / 2 + 1
  }

  /** A quorum is reached exactly when more than half of the nodes are counted. */
  lemma QuorumIsMajority(k: nat, n: nat)
    ensures k >= Quorum(n) <==> 2 * k > n
  {}

  function Drift(cfg: Config, ttl: real): real {
    ttl * cfg.driftFactor + 2.0
  }

  function Early(cfg: Config, ttl: real): real {
    ttl * cfg.nodeRate + cfg.nodeLag
  }

  // ---- what one command does to one node

  predicate Owned(node: Node, owner: Owner) {
    node.Some? && node.value.owner == owner
  }

  /** `SET key value NX PX ttl`. */
  function AfterSet(node: Node, owner: Owner, safeUntil: real): Node {
    if node.None? then Some(Key(owner, safeUntil)) else node
  }

  /** The release script. */
  function AfterDelete(node: Node, owner: Owner): Node {
    if Owned(node, owner) then None else node
  }

  /** The extend script, for a positive time-to-live. */
  function AfterExtend(node: Node, owner: Owner, safeUntil: real): Node {
    if Owned(node, owner) then Some(Key(owner, safeUntil)) else node
  }

  /** A command is carried out and answered, carried out with its reply lost, or not carried out. */
  datatype Outcome = Replied | ReplyLost | NotDone

  // ---- clients

  /** `got` and `extended` are the nodes counted so far, `missed` those whose release was not carried out. */
  datatype Client =
    | Idle
    | Acquiring(start: real, ttl: real, next: nat, got: set<nat>)
    | Stamping(start: real, ttl: real, got: set<nat>, readAt: real)
    | Holding(until: real, got: set<nat>)
    | Extending(until: real, got: set<nat>, start: real, ttl: real, next: nat, extended: set<nat>)
    | Releasing(next: nat, missed: set<nat>)

  datatype World = World(now: real, nodes: seq<Node>, clients: map<Owner, Client>)

  datatype Event =
    | Tick(to: real)
    | Expire(i: nat)
    | Start(a: Owner, ttl: real)
    | TrySet(a: Owner, outcome: Outcome)
    | Decide(a: Owner)
    | Stamp(a: Owner)
    | StartExtend(a: Owner, ttl: real)
    | TryExtend(a: Owner, outcome: Outcome)
    | FinishExtend(a: Owner)
    | Release(a: Owner)
    | TryDelete(a: Owner, carriedOut: bool)
    | Released(a: Owner)
    | Forget(a: Owner)

  ghost function ClientOf(w: World, a: Owner): Client {
    if a in w.clients then w.clients[a] else Idle
  }

  /** Clients may use the given times-to-live, and extend a lock only so far that it is not shortened. */
  ghost predicate Enabled(cfg: Config, ttls: iset<real>, w: World, e: Event) {
    match e
    case Tick(to) => to >= w.now
    case Expire(i) => i < |w.nodes| && w.nodes[i].Some? && w.now >= w.nodes[i].value.safeUntil
    case Start(a, ttl) => ClientOf(w, a).Idle? && ttl in ttls
    case TrySet(a, _) => ClientOf(w, a).Acquiring? && ClientOf(w, a).next < |w.nodes|
    case Decide(a) => ClientOf(w, a).Acquiring? && ClientOf(w, a).next == |w.nodes|
    case Stamp(a) => ClientOf(w, a).Stamping? && w.now <= ClientOf(w, a).readAt + cfg.gap
    case StartExtend(a, ttl) =>
      ClientOf(w, a).Holding? && ttl in ttls && ttl > 0.0 && w.now + ttl - Drift(cfg, ttl) >= ClientOf(w, a).until
    case TryExtend(a, _) => ClientOf(w, a).Extending? && ClientOf(w, a).next < |w.nodes|
    case FinishExtend(a) => ClientOf(w, a).Extending? && ClientOf(w, a).next == |w.nodes|
    case Release(a) => ClientOf(w, a).Holding?
    case TryDelete(a, _) => ClientOf(w, a).Releasing? && ClientOf(w, a).next < |w.nodes|
    case Released(a) => ClientOf(w, a).Releasing? && ClientOf(w, a).next == |w.nodes|
    case Forget(a) => ClientOf(w, a).Holding?
  }

  ghost function With(w: World, a: Owner, c: Client): World {
    w.(clients := w.clients[a := c])
  }

  ghost function WithNode(w: World, i: nat, node: Node): World
    requires i < |w.nodes|
  {
    w.(nodes := w.nodes[i := node])
  }

  /** The next SET of an attempt. A node refuses a time-to-live that is not positive. */
  ghost function AfterTrySet(cfg: Config, w: World, a: Owner, outcome: Outcome): World
    requires ClientOf(w, a).Acquiring? && ClientOf(w, a).next < |w.nodes|
  {
    var c := ClientOf(w, a);
    if outcome == NotDone || c.ttl <= 0.0 then With(w, a, Acquiring(c.start, c.ttl, c.next + 1, c.got))
    else
      var node := w.nodes[c.next];
      var got := if outcome == Replied && node.None? then c.got + {c.next} else c.got;
      WithNode(With(w, a, Acquiring(c.start, c.ttl, c.next + 1, got)), c.next,
               AfterSet(node, a, w.now + c.ttl - Early(cfg, c.ttl)))
  }

  /** Without a quorum all nodes are released, unless there is only one; with one, the validity time decides. */
  ghost function AfterDecide(cfg: Config, w: World, a: Owner): World
    requires ClientOf(w, a).Acquiring?
  {
    var c := ClientOf(w, a);
    if |c.got| < Quorum(cfg.n) then With(w, a, if cfg.n == 1 then Idle else Releasing(0, {}))
    else if Validity(cfg, c.ttl, w.now - c.start) > 0.0 then With(w, a, Stamping(c.start, c.ttl, c.got, w.now))
    else With(w, a, Releasing(0, {}))
  }

  function Validity(cfg: Config, ttl: real, elapsed: real): real {
    ttl - elapsed - Drift(cfg, ttl)
  }

  ghost function AfterTryExtend(cfg: Config, w: World, a: Owner, outcome: Outcome): World
    requires ClientOf(w, a).Extending? && ClientOf(w, a).next < |w.nodes|
  {
    var c := ClientOf(w, a);
    if outcome == NotDone then With(w, a, Extending(c.until, c.got, c.start, c.ttl, c.next + 1, c.extended))
    else
      var node := w.nodes[c.next];
      var extended := if outcome == Replied && Owned(node, a) then c.extended + {c.next} else c.extended;
      WithNode(With(w, a, Extending(c.until, c.got, c.start, c.ttl, c.next + 1, extended)), c.next,
               AfterExtend(node, a, w.now + c.ttl - Early(cfg, c.ttl)))
  }

  /** A successful extension protects the lock for the new time-to-live less the margin, from when it started. */
  ghost function AfterFinishExtend(cfg: Config, w: World, a: Owner): World
    requires ClientOf(w, a).Extending?
  {
    var c := ClientOf(w, a);
    With(w, a, if |c.extended| >= Quorum(cfg.n) then Holding(c.start + c.ttl - Drift(cfg, c.ttl), c.extended)
               else Holding(c.until, c.got))
  }

  ghost function AfterTryDelete(w: World, a: Owner, carriedOut: bool): World
    requires ClientOf(w, a).Releasing? && ClientOf(w, a).next < |w.nodes|
  {
    var c := ClientOf(w, a);
    if carriedOut then
      WithNode(With(w, a, Releasing(c.next + 1, c.missed)), c.next, AfterDelete(w.nodes[c.next], a))
    else With(w, a, Releasing(c.next + 1, c.missed + {c.next}))
  }

  ghost function Step(cfg: Config, ttls: iset<real>, w: World, e: Event): World
    requires Enabled(cfg, ttls, w, e)
  {
    match e
    case Tick(to) => w.(now := to)
    case Expire(i) => WithNode(w, i, None)
    case Start(a, ttl) => With(w, a, Acquiring(w.now, ttl, 0, {}))
    case TrySet(a, outcome) => AfterTrySet(cfg, w, a, outcome)
    case Decide(a) => AfterDecide(cfg, w, a)
    case Stamp(a) =>
      var c := ClientOf(w, a);
      With(w, a, Holding(w.now + Validity(cfg, c.ttl, c.readAt - c.start), c.got))
    case StartExtend(a, ttl) =>
      With(w, a, Extending(ClientOf(w, a).until, ClientOf(w, a).got, w.now, ttl, 0, {}))
    case TryExtend(a, outcome) => AfterTryExtend(cfg, w, a, outcome)
    case FinishExtend(a) => AfterFinishExtend(cfg, w, a)
    case Release(a) => With(w, a, Releasing(0, {}))
    case TryDelete(a, carriedOut) => AfterTryDelete(w, a, carriedOut)
    case Released(a) => With(w, a, Idle)
    case Forget(a) => With(w, a, Idle)
  }

  // ---- runs

  ghost predicate IsRun(cfg: Config, ttls: iset<real>, w: World, events: seq<Event>)
    decreases |events|
  {
    events == [] || (Enabled(cfg, ttls, w, events[0]) && IsRun(cfg, ttls, Step(cfg, ttls, w, events[0]), events[1..]))
  }

  ghost function After(cfg: Config, ttls: iset<real>, w: World, events: seq<Event>): World
    requires IsRun(cfg, ttls, w, events)
    decreases |events|
  {
    if events == [] then w else After(cfg, ttls, Step(cfg, ttls, w, events[0]), events[1..])
  }

  ghost function Initial(cfg: Config): World {
    World(0.0, seq(cfg.n, _ => None), map[])
  }

  /** The client has a lock whose expiry is still in the future. */
  ghost predicate Holds(w: World, a: Owner) {
    var c := ClientOf(w, a);
    (c.Holding? || c.Extending?) && w.now < c.until
  }

  ghost predicate Exclusive(w: World) {
    forall a, b :: Holds(w, a) && Holds(w, b) ==> a == b
  }

  /** The drift margin covers early expiry and the delay before stamping, for every usable time-to-live. */
  ghost predicate MarginCovers(cfg: Config, ttls: iset<real>) {
    forall ttl :: ttl in ttls && ttl > 0.0 && ttl > Drift(cfg, ttl) ==> Early(cfg, ttl) + cfg.gap <= Drift(cfg, ttl)
  }

  // ---- the invariant

  /** Until `bound` the node keeps a key of the owner. */
  ghost predicate Guarded(now: real, nodes: seq<Node>, i: nat, a: Owner, bound: real) {
    i < |nodes| && (now < bound ==> Owned(nodes[i], a) && nodes[i].value.safeUntil >= bound)
  }

  ghost predicate AllGuarded(now: real, nodes: seq<Node>, got: set<nat>, a: Owner, bound: real) {
    forall i :: i in got ==> Guarded(now, nodes, i, a, bound)
  }

  ghost predicate ClientOk(cfg: Config, ttls: iset<real>, now: real, nodes: seq<Node>, a: Owner, c: Client) {
    match c
    case Idle => true
    case Acquiring(start, ttl, next, got) =>
      && start <= now && ttl in ttls
      && (forall i :: i in got ==> i < next)
      && (got != {} ==> ttl > 0.0)
      && AllGuarded(now, nodes, got, a, start + ttl - Early(cfg, ttl))
    case Stamping(start, ttl, got, readAt) =>
      && start <= readAt <= now && ttl in ttls && ttl > 0.0 && ttl > Drift(cfg, ttl)
      && |got| >= Quorum(cfg.n)
      && AllGuarded(now, nodes, got, a, start + ttl - Early(cfg, ttl))
    case Holding(until, got) =>
      |got| >= Quorum(cfg.n) && AllGuarded(now, nodes, got, a, until)
    case Extending(until, got, start, ttl, next, extended) =>
      && |got| >= Quorum(cfg.n) && AllGuarded(now, nodes, got, a, until)
      && start <= now && ttl in ttls && ttl > 0.0 && until <= start + ttl - Drift(cfg, ttl)
      && (forall i :: i in extended ==> i < next)
      && AllGuarded(now, nodes, extended, a, start + ttl - Early(cfg, ttl))
    case Releasing(_, _) => true
  }

  ghost predicate Inv(cfg: Config, ttls: iset<real>, w: World) {
    && |w.nodes| == cfg.n
    && forall a {:trigger ClientOf(w, a)} :: ClientOk(cfg, ttls, w.now, w.nodes, a, ClientOf(w, a))
  }

  // ---- what keeps a client's part of the invariant

  lemma LaterIsOk(cfg: Config, ttls: iset<real>, now: real, later: real, nodes: seq<Node>, a: Owner, c: Client)
    requires ClientOk(cfg, ttls, now, nodes, a, c) && now <= later
    ensures ClientOk(cfg, ttls, later, nodes, a, c)
  {}

  /** A change to a node that does not carry the client's key, nor puts it there. */
  lemma ForeignChangeIsOk(cfg: Config, ttls: iset<real>, now: real, nodes: seq<Node>, j: nat, node: Node, a: Owner,
        c: Client)
    requires ClientOk(cfg, ttls, now, nodes, a, c) && j < |nodes|
    requires !Owned(nodes[j], a) && !Owned(node, a)
    ensures ClientOk(cfg, ttls, now, nodes[j := node], a, c)
  {}

  lemma ExpiryIsOk(cfg: Config, ttls: iset<real>, now: real, nodes: seq<Node>, j: nat, a: Owner, c: Client)
    requires ClientOk(cfg, ttls, now, nodes, a, c) && j < |nodes|
    requires nodes[j].Some? && now >= nodes[j].value.safeUntil
    ensures ClientOk(cfg, ttls, now, nodes[j := None], a, c)
  {}

  // ---- the steps of one client

  /** The other clients keep their part when a client changes only itself and a node that is free or its own. */
  lemma OthersOk(cfg: Config, ttls: iset<real>, w: World, a: Owner, c: Client, j: nat, node: Node)
    requires Inv(cfg, ttls, w) && j < |w.nodes|
    requires w.nodes[j].None? || Owned(w.nodes[j], a)
    requires node.None? || Owned(node, a)
    requires ClientOk(cfg, ttls, w.now, w.nodes[j := node], a, c)
    ensures Inv(cfg, ttls, WithNode(With(w, a, c), j, node))
  {
    var w' := WithNode(With(w, a, c), j, node);
    forall b {:trigger ClientOf(w', b)} ensures ClientOk(cfg, ttls, w'.now, w'.nodes, b, ClientOf(w', b)) {
      if b != a {
        assert ClientOf(w', b) == ClientOf(w, b);
        ForeignChangeIsOk(cfg, ttls, w.now, w.nodes, j, node, b, ClientOf(w, b));
      }
    }
  }

  lemma ClientStepOk(cfg: Config, ttls: iset<real>, w: World, a: Owner, c: Client)
    requires Inv(cfg, ttls, w) && ClientOk(cfg, ttls, w.now, w.nodes, a, c)
    ensures Inv(cfg, ttls, With(w, a, c))
  {
    var w' := With(w, a, c);
    forall b {:trigger ClientOf(w', b)} ensures ClientOk(cfg, ttls, w'.now, w'.nodes, b, ClientOf(w', b)) {
      if b != a {
        assert ClientOf(w', b) == ClientOf(w, b);
      }
    }
  }

  lemma TrySetOk(cfg: Config, ttls: iset<real>, w: World, a: Owner, outcome: Outcome)
    requires Inv(cfg, ttls, w) && Enabled(cfg, ttls, w, TrySet(a, outcome))
    ensures Inv(cfg, ttls, AfterTrySet(cfg, w, a, outcome))
  {
    var c := ClientOf(w, a);
    var j, node, bound := c.next, w.nodes[c.next], c.start + c.ttl - Early(cfg, c.ttl);
    if outcome == NotDone || c.ttl <= 0.0 || node.Some? {
      assert AfterSet(node, a, w.now + c.ttl - Early(cfg, c.ttl)) == node || node.None?;
      assert w.nodes[j := node] == w.nodes;
      ClientStepOk(cfg, ttls, w, a, Acquiring(c.start, c.ttl, c.next + 1, c.got));
    } else {
      var got := if outcome == Replied then c.got + {j} else c.got;
      var node' := AfterSet(node, a, w.now + c.ttl - Early(cfg, c.ttl));
      assert AllGuarded(w.now, w.nodes[j := node'], got, a, bound) by {
        forall i | i in got ensures Guarded(w.now, w.nodes[j := node'], i, a, bound) {
          assert i != j ==> Guarded(w.now, w.nodes, i, a, bound);
        }
      }
      OthersOk(cfg, ttls, w, a, Acquiring(c.start, c.ttl, c.next + 1, got), j, node');
    }
  }

  lemma DecideOk(cfg: Config, ttls: iset<real>, w: World, a: Owner)
    requires Inv(cfg, ttls, w) && Enabled(cfg, ttls, w, Decide(a))
    ensures Inv(cfg, ttls, AfterDecide(cfg, w, a))
  {
    var c := ClientOf(w, a);
    if |c.got| >= Quorum(cfg.n) && Validity(cfg, c.ttl, w.now - c.start) > 0.0 {
      ClientStepOk(cfg, ttls, w, a, Stamping(c.start, c.ttl, c.got, w.now));
    } else {
      ClientStepOk(cfg, ttls, w, a, if |c.got| < Quorum(cfg.n) && cfg.n == 1 then Idle else Releasing(0, {}));
    }
  }

  /** What is guarded for longer is guarded for less. */
  lemma GuardedLess(now: real, nodes: seq<Node>, got: set<nat>, a: Owner, bound: real, less: real)
    requires AllGuarded(now, nodes, got, a, bound) && less <= bound
    ensures AllGuarded(now, nodes, got, a, less)
  {
    forall i | i in got ensures Guarded(now, nodes, i, a, less) {
      assert Guarded(now, nodes, i, a, bound);
    }
  }

  /** The margin is what makes the stamped expiry safe. */
  lemma StampOk(cfg: Config, ttls: iset<real>, w: World, a: Owner)
    requires MarginCovers(cfg, ttls) && Inv(cfg, ttls, w) && Enabled(cfg, ttls, w, Stamp(a))
    ensures Inv(cfg, ttls, Step(cfg, ttls, w, Stamp(a)))
  {
    var c := ClientOf(w, a);
    var until := w.now + Validity(cfg, c.ttl, c.readAt - c.start);
    assert until <= c.start + c.ttl + cfg.gap - Drift(cfg, c.ttl) <= c.start + c.ttl - Early(cfg, c.ttl);
    GuardedLess(w.now, w.nodes, c.got, a, c.start + c.ttl - Early(cfg, c.ttl), until);
    ClientStepOk(cfg, ttls, w, a, Holding(until, c.got));
  }

  lemma TryExtendOk(cfg: Config, ttls: iset<real>, w: World, a: Owner, outcome: Outcome)
    requires MarginCovers(cfg, ttls) && cfg.gap >= 0.0
    requires Inv(cfg, ttls, w) && Enabled(cfg, ttls, w, TryExtend(a, outcome))
    ensures Inv(cfg, ttls, AfterTryExtend(cfg, w, a, outcome))
  {
    var c := ClientOf(w, a);
    var j, node, bound := c.next, w.nodes[c.next], c.start + c.ttl - Early(cfg, c.ttl);
    if outcome == NotDone || !Owned(node, a) {
      assert w.nodes[j := node] == w.nodes;
      ClientStepOk(cfg, ttls, w, a, Extending(c.until, c.got, c.start, c.ttl, c.next + 1, c.extended));
    } else {
      var extended := if outcome == Replied then c.extended + {j} else c.extended;
      var nodes' := w.nodes[j := AfterExtend(node, a, w.now + c.ttl - Early(cfg, c.ttl))];
      ExtensionGuards(cfg, ttls, w, a, j);
      OthersOk(cfg, ttls, w, a, Extending(c.until, c.got, c.start, c.ttl, c.next + 1, extended), j, nodes'[j]);
    }
  }

  lemma ExtensionGuards(cfg: Config, ttls: iset<real>, w: World, a: Owner, j: nat)
    requires MarginCovers(cfg, ttls) && cfg.gap >= 0.0
    requires Inv(cfg, ttls, w) && ClientOf(w, a).Extending? && j < |w.nodes|
    ensures var c := ClientOf(w, a);
            var bound := c.start + c.ttl - Early(cfg, c.ttl);
            var nodes' := w.nodes[j := Some(Key(a, w.now + c.ttl - Early(cfg, c.ttl)))];
            && AllGuarded(w.now, nodes', c.got, a, c.until)
            && AllGuarded(w.now, nodes', c.extended, a, bound)
            && Guarded(w.now, nodes', j, a, bound)
  {
    var c := ClientOf(w, a);
    var bound := c.start + c.ttl - Early(cfg, c.ttl);
    var nodes' := w.nodes[j := Some(Key(a, w.now + c.ttl - Early(cfg, c.ttl)))];
    assert w.now < c.until ==> c.until <= bound;
    forall i | i in c.got ensures Guarded(w.now, nodes', i, a, c.until) {
      assert Guarded(w.now, w.nodes, i, a, c.until);
    }
    forall i | i in c.extended ensures Guarded(w.now, nodes', i, a, bound) {
      assert Guarded(w.now, w.nodes, i, a, bound);
    }
  }

  lemma FinishExtendOk(cfg: Config, ttls: iset<real>, w: World, a: Owner)
    requires MarginCovers(cfg, ttls) && cfg.gap >= 0.0
    requires Inv(cfg, ttls, w) && Enabled(cfg, ttls, w, FinishExtend(a))
    ensures Inv(cfg, ttls, AfterFinishExtend(cfg, w, a))
  {
    var c := ClientOf(w, a);
    var until, bound := c.start + c.ttl - Drift(cfg, c.ttl), c.start + c.ttl - Early(cfg, c.ttl);
    if |c.extended| >= Quorum(cfg.n) {
      if c.ttl > Drift(cfg, c.ttl) {
        GuardedLess(w.now, w.nodes, c.extended, a, bound, until);
      } else {
        forall i | i in c.extended ensures Guarded(w.now, w.nodes, i, a, until) {
          assert Guarded(w.now, w.nodes, i, a, bound);
        }
      }
      ClientStepOk(cfg, ttls, w, a, Holding(until, c.extended));
    } else {
      ClientStepOk(cfg, ttls, w, a, Holding(c.until, c.got));
    }
  }

  lemma TryDeleteOk(cfg: Config, ttls: iset<real>, w: World, a: Owner, carriedOut: bool)
    requires Inv(cfg, ttls, w) && Enabled(cfg, ttls, w, TryDelete(a, carriedOut))
    ensures Inv(cfg, ttls, AfterTryDelete(w, a, carriedOut))
  {
    var c := ClientOf(w, a);
    var j, node := c.next, w.nodes[c.next];
    if carriedOut && Owned(node, a) {
      OthersOk(cfg, ttls, w, a, Releasing(c.next + 1, c.missed), j, None);
    } else {
      assert w.nodes[j := node] == w.nodes;
      ClientStepOk(cfg, ttls, w, a, Releasing(c.next + 1, if carriedOut then c.missed else c.missed + {j}));
    }
  }

  lemma TimeOk(cfg: Config, ttls: iset<real>, w: World, e: Event)
    requires Inv(cfg, ttls, w) && Enabled(cfg, ttls, w, e) && (e.Tick? || e.Expire?)
    ensures Inv(cfg, ttls, Step(cfg, ttls, w, e))
  {
    var w' := Step(cfg, ttls, w, e);
    forall b {:trigger ClientOf(w', b)} ensures ClientOk(cfg, ttls, w'.now, w'.nodes, b, ClientOf(w', b)) {
      assert ClientOf(w', b) == ClientOf(w, b);
      if e.Tick? {
        LaterIsOk(cfg, ttls, w.now, e.to, w.nodes, b, ClientOf(w, b));
      } else {
        ExpiryIsOk(cfg, ttls, w.now, w.nodes, e.i, b, ClientOf(w, b));
      }
    }
  }

  lemma StepOk(cfg: Config, ttls: iset<real>, w: World, e: Event)
    requires MarginCovers(cfg, ttls) && cfg.gap >= 0.0
    requires Inv(cfg, ttls, w) && Enabled(cfg, ttls, w, e)
    ensures Inv(cfg, ttls, Step(cfg, ttls, w, e))
  {
    match e
    case Tick(_) => TimeOk(cfg, ttls, w, e);
    case Expire(_) => TimeOk(cfg, ttls, w, e);
    case Start(a, ttl) => ClientStepOk(cfg, ttls, w, a, Acquiring(w.now, ttl, 0, {}));
    case TrySet(a, outcome) => TrySetOk(cfg, ttls, w, a, outcome);
    case Decide(a) => DecideOk(cfg, ttls, w, a);
    case Stamp(a) => StampOk(cfg, ttls, w, a);
    case StartExtend(a, ttl) =>
      ClientStepOk(cfg, ttls, w, a, Extending(ClientOf(w, a).until, ClientOf(w, a).got, w.now, ttl, 0, {}));
    case TryExtend(a, outcome) => TryExtendOk(cfg, ttls, w, a, outcome);
    case FinishExtend(a) => FinishExtendOk(cfg, ttls, w, a);
    case Release(a) => ClientStepOk(cfg, ttls, w, a, Releasing(0, {}));
    case TryDelete(a, carriedOut) => TryDeleteOk(cfg, ttls, w, a, carriedOut);
    case Released(a) => ClientStepOk(cfg, ttls, w, a, Idle);
    case Forget(a) => ClientStepOk(cfg, ttls, w, a, Idle);
  }

  lemma {:induction false} RunOk(cfg: Config, ttls: iset<real>, w: World, events: seq<Event>)
    requires MarginCovers(cfg, ttls) && cfg.gap >= 0.0
    requires Inv(cfg, ttls, w) && IsRun(cfg, ttls, w, events)
    ensures Inv(cfg, ttls, After(cfg, ttls, w, events))
    decreases |events|
  {
    if events != [] {
      StepOk(cfg, ttls, w, events[0]);
      RunOk(cfg, ttls, Step(cfg, ttls, w, events[0]), events[1..]);
    }
  }

  // ---- mutual exclusion

  predicate IsBelow(i: nat, n: nat) {
    i < n
  }

  ghost function Below(n: nat): set<nat> {
    set i: nat {:trigger IsBelow(i, n)} | i < n && IsBelow(i, n)
  }

  lemma {:induction false} BelowCardinality(n: nat)
    ensures |Below(n)| == n
  {
    if n == 0 {
      assert Below(0) == {};
    } else {
      BelowCardinality(n - 1);
      assert Below(n) == Below(n - 1) + {n - 1};
    }
  }

  /** Any two quorums have a node in common. */
  lemma QuorumsMeet(n: nat, a: set<nat>, b: set<nat>)
    requires forall i :: i in a || i in b ==> i < n
    requires |a| >= Quorum(n) && |b| >= Quorum(n)
    ensures exists i :: i in a && i in b
  {
    BelowCardinality(n);
    SubsetCardinality(a + b, Below(n));
    assert |a + b| + |a * b| == |a| + |b|;
    assert a * b != {};
    var i :| i in a * b;
  }

  lemma GuardedAreNodes(cfg: Config, ttls: iset<real>, w: World, got: set<nat>, a: Owner, bound: real)
    requires Inv(cfg, ttls, w) && AllGuarded(w.now, w.nodes, got, a, bound)
    ensures forall i :: i in got ==> i < cfg.n
  {
    forall i | i in got ensures i < cfg.n {
      assert Guarded(w.now, w.nodes, i, a, bound);
    }
  }

  /** Two owners cannot both have a quorum of nodes guarded beyond the present. */
  lemma GuardedQuorumsClash(cfg: Config, ttls: iset<real>, w: World, a: Owner, got: set<nat>, until: real,
        b: Owner, got': set<nat>, until': real)
    requires Inv(cfg, ttls, w) && |got| >= Quorum(cfg.n) && |got'| >= Quorum(cfg.n)
    requires AllGuarded(w.now, w.nodes, got, a, until) && w.now < until
    requires AllGuarded(w.now, w.nodes, got', b, until') && w.now < until'
    ensures a == b
  {
    GuardedAreNodes(cfg, ttls, w, got, a, until);
    GuardedAreNodes(cfg, ttls, w, got', b, until');
    QuorumsMeet(cfg.n, got, got');
    var i :| i in got && i in got';
    assert Guarded(w.now, w.nodes, i, a, until) && Guarded(w.now, w.nodes, i, b, until');
  }

  lemma InvIsExclusive(cfg: Config, ttls: iset<real>, w: World)
    requires Inv(cfg, ttls, w)
    ensures Exclusive(w)
  {
    forall a, b | Holds(w, a) && Holds(w, b) ensures a == b {
      var c, d := ClientOf(w, a), ClientOf(w, b);
      GuardedQuorumsClash(cfg, ttls, w, a, c.got, c.until, b, d.got, d.until);
    }
  }

  /** In every run in which the margin covers, two owners never hold the lock at the same time. */
  lemma MutualExclusion(cfg: Config, ttls: iset<real>, events: seq<Event>)
    requires MarginCovers(cfg, ttls) && cfg.gap >= 0.0
    requires IsRun(cfg, ttls, Initial(cfg), events)
    ensures Exclusive(After(cfg, ttls, Initial(cfg), events))
  {
    RunOk(cfg, ttls, Initial(cfg), events);
    InvIsExclusive(cfg, ttls, After(cfg, ttls, Initial(cfg), events));
  }

  /**
   * While an owner holds the lock, and after a successful extension that is until the extension's start plus its
   * time-to-live less the margin, no other owner can complete a quorum that is still worth anything.
   */
  lemma HeldLockBlocksOthers(cfg: Config, ttls: iset<real>, events: seq<Event>, a: Owner, b: Owner)
    requires MarginCovers(cfg, ttls) && cfg.gap >= 0.0
    requires IsRun(cfg, ttls, Initial(cfg), events)
    requires a != b && Holds(After(cfg, ttls, Initial(cfg), events), a)
    ensures var w := After(cfg, ttls, Initial(cfg), events); var c := ClientOf(w, b);
            && (c.Acquiring? && w.now < c.start + c.ttl - Early(cfg, c.ttl) ==> 2 * |c.got| <= cfg.n)
            && (c.Stamping? ==> w.now >= c.start + c.ttl - Early(cfg, c.ttl))
  {
    RunOk(cfg, ttls, Initial(cfg), events);
    var w := After(cfg, ttls, Initial(cfg), events);
    var c, d := ClientOf(w, a), ClientOf(w, b);
    if d.Acquiring? {
      QuorumIsMajority(|d.got|, cfg.n);
    }
    if (d.Acquiring? || d.Stamping?) && |d.got| >= Quorum(cfg.n) && w.now < d.start + d.ttl - Early(cfg, d.ttl) {
      GuardedQuorumsClash(cfg, ttls, w, a, c.got, c.until, b, d.got, d.start + d.ttl - Early(cfg, d.ttl));
      assert false;
    }
  }

  /** The nodes a releasing client has visited, but for those it missed, carry no key of it. */
  ghost predicate Cleared(w: World, a: Owner) {
    var c := ClientOf(w, a);
    c.Releasing? ==> c.next <= |w.nodes| && forall i :: 0 <= i < c.next && i !in c.missed ==> !Owned(w.nodes[i], a)
  }

  ghost predicate AllCleared(w: World) {
    forall a {:trigger Cleared(w, a)} :: Cleared(w, a)
  }

  lemma StepKeepsCleared(cfg: Config, ttls: iset<real>, w: World, e: Event)
    requires AllCleared(w) && Enabled(cfg, ttls, w, e)
    ensures AllCleared(Step(cfg, ttls, w, e)) && |Step(cfg, ttls, w, e).nodes| == |w.nodes|
  {
    var w' := Step(cfg, ttls, w, e);
    forall a {:trigger Cleared(w', a)} ensures Cleared(w', a) {
      assert Cleared(w, a);
    }
  }

  lemma {:induction false} RunKeepsCleared(cfg: Config, ttls: iset<real>, w: World, events: seq<Event>)
    requires AllCleared(w) && IsRun(cfg, ttls, w, events)
    ensures AllCleared(After(cfg, ttls, w, events)) && |After(cfg, ttls, w, events).nodes| == |w.nodes|
    decreases |events|
  {
    if events != [] {
      StepKeepsCleared(cfg, ttls, w, events[0]);
      RunKeepsCleared(cfg, ttls, Step(cfg, ttls, w, events[0]), events[1..]);
    }
  }

  /** A completed release of which every command was carried out leaves no key of its owner on any node. */
  lemma ReleaseLeavesNoKey(cfg: Config, ttls: iset<real>, events: seq<Event>, a: Owner)
    requires IsRun(cfg, ttls, Initial(cfg), events)
    requires ClientOf(After(cfg, ttls, Initial(cfg), events), a) == Releasing(cfg.n, {})
    ensures var w := After(cfg, ttls, Initial(cfg), events);
            |w.nodes| == cfg.n && forall i :: 0 <= i < cfg.n ==> !Owned(w.nodes[i], a)
  {
    RunKeepsCleared(cfg, ttls, Initial(cfg), events);
    assert Cleared(After(cfg, ttls, Initial(cfg), events), a);
  }

  ghost predicate ActsFor(e: Event, a: Owner) {
    !e.Tick? && !e.Expire? && e.a == a
  }

  /** No step of a client touches the key of another owner. */
  lemma StepsSpareOthersKeys(cfg: Config, ttls: iset<real>, w: World, e: Event, a: Owner, i: nat)
    requires Enabled(cfg, ttls, w, e) && ActsFor(e, a) && i < |w.nodes|
    requires w.nodes[i].Some? && !Owned(w.nodes[i], a)
    ensures |Step(cfg, ttls, w, e).nodes| == |w.nodes|
    ensures Step(cfg, ttls, w, e).nodes[i] == w.nodes[i]
  {}

  // ---- without the margin, two owners can hold the lock together

  lemma {:induction false} RunsCompose(cfg: Config, ttls: iset<real>, w: World, first: seq<Event>, second: seq<Event>)
    requires IsRun(cfg, ttls, w, first)
    requires IsRun(cfg, ttls, After(cfg, ttls, w, first), second)
    ensures IsRun(cfg, ttls, w, first + second)
    ensures After(cfg, ttls, w, first + second) == After(cfg, ttls, After(cfg, ttls, w, first), second)
    decreases |first|
  {
    if first == [] {
      assert first + second == second;
    } else {
      assert (first + second)[1..] == first[1..] + second;
      RunsCompose(cfg, ttls, Step(cfg, ttls, w, first[0]), first[1..], second);
    }
  }

  /** `w'` can follow `w`. */
  ghost predicate Reaches(cfg: Config, ttls: iset<real>, w: World, w': World) {
    exists events :: IsRun(cfg, ttls, w, events) && After(cfg, ttls, w, events) == w'
  }

  lemma ReachesByStep(cfg: Config, ttls: iset<real>, w: World, e: Event)
    requires Enabled(cfg, ttls, w, e)
    ensures Reaches(cfg, ttls, w, Step(cfg, ttls, w, e))
  {
    var w' := Step(cfg, ttls, w, e);
    assert [e][1..] == [];
    assert IsRun(cfg, ttls, w', []) && After(cfg, ttls, w', []) == w';
    assert IsRun(cfg, ttls, w, [e]) && After(cfg, ttls, w, [e]) == w';
  }

  lemma ReachesThrough(cfg: Config, ttls: iset<real>, w: World, w': World, w'': World)
    requires Reaches(cfg, ttls, w, w') && Reaches(cfg, ttls, w', w'')
    ensures Reaches(cfg, ttls, w, w'')
  {
    var first :| IsRun(cfg, ttls, w, first) && After(cfg, ttls, w, first) == w';
    var second :| IsRun(cfg, ttls, w', second) && After(cfg, ttls, w', second) == w'';
    RunsCompose(cfg, ttls, w, first, second);
    assert IsRun(cfg, ttls, w, first + second);
  }

  ghost function Filled(n: nat, k: nat, node: Node, rest: Node): seq<Node> {
    seq(n, i => if i < k then node else rest)
  }

  /** From the k-th node on, all nodes are free and every SET succeeds at once. */
  lemma {:induction false} SetRemaining(cfg: Config, ttls: iset<real>, w: World, a: Owner, ttl: real, k: nat)
    requires k <= cfg.n && ttl > 0.0
    requires ClientOf(w, a) == Acquiring(w.now, ttl, k, Below(k))
    requires w.nodes == Filled(cfg.n, k, Some(Key(a, w.now + ttl - Early(cfg, ttl))), None)
    ensures Reaches(cfg, ttls, w,
              World(w.now, Filled(cfg.n, cfg.n, Some(Key(a, w.now + ttl - Early(cfg, ttl))), None),
                    w.clients[a := Acquiring(w.now, ttl, cfg.n, Below(cfg.n))]))
    decreases cfg.n - k
  {
    var key: Node := Some(Key(a, w.now + ttl - Early(cfg, ttl)));
    if k == cfg.n {
      assert w == World(w.now, Filled(cfg.n, cfg.n, key, None),
                        w.clients[a := Acquiring(w.now, ttl, cfg.n, Below(cfg.n))]);
      assert IsRun(cfg, ttls, w, []) && After(cfg, ttls, w, []) == w;
    } else {
      var w' := Step(cfg, ttls, w, TrySet(a, Replied));
      ReachesByStep(cfg, ttls, w, TrySet(a, Replied));
      SetOne(cfg, w, a, ttl, k);
      SetRemaining(cfg, ttls, w', a, ttl, k + 1);
      var all := Acquiring(w.now, ttl, cfg.n, Below(cfg.n));
      assert w'.clients[a := all] == w.clients[a := all];
      ReachesThrough(cfg, ttls, w, w', World(w.now, Filled(cfg.n, cfg.n, key, None), w.clients[a := all]));
    }
  }

  lemma SetOne(cfg: Config, w: World, a: Owner, ttl: real, k: nat)
    requires k < cfg.n && ttl > 0.0
    requires ClientOf(w, a) == Acquiring(w.now, ttl, k, Below(k))
    requires w.nodes == Filled(cfg.n, k, Some(Key(a, w.now + ttl - Early(cfg, ttl))), None)
    ensures var w' := AfterTrySet(cfg, w, a, Replied);
            && w'.now == w.now
            && w'.nodes == Filled(cfg.n, k + 1, Some(Key(a, w.now + ttl - Early(cfg, ttl))), None)
            && w'.clients == w.clients[a := Acquiring(w.now, ttl, k + 1, Below(k + 1))]
  {
    assert Below(k + 1) == Below(k) + {k};
  }

  /** With all nodes free, an idle client can have its attempt answered at once and its validity time read. */
  lemma AcquireAtOnce(cfg: Config, ttls: iset<real>, w: World, a: Owner, ttl: real)
    requires cfg.n >= 1 && ttl in ttls && ttl > 0.0 && ttl > Drift(cfg, ttl)
    requires ClientOf(w, a) == Idle && w.nodes == Filled(cfg.n, cfg.n, None, None)
    ensures Reaches(cfg, ttls, w,
              World(w.now, Filled(cfg.n, cfg.n, Some(Key(a, w.now + ttl - Early(cfg, ttl))), None),
                    w.clients[a := Stamping(w.now, ttl, Below(cfg.n), w.now)]))
  {
    var key: Node := Some(Key(a, w.now + ttl - Early(cfg, ttl)));
    var w1 := Step(cfg, ttls, w, Start(a, ttl));
    ReachesByStep(cfg, ttls, w, Start(a, ttl));
    assert Below(0) == {};
    assert w1.nodes == Filled(cfg.n, 0, key, None);
    SetRemaining(cfg, ttls, w1, a, ttl, 0);
    var w2 := World(w.now, Filled(cfg.n, cfg.n, key, None),
                    w1.clients[a := Acquiring(w.now, ttl, cfg.n, Below(cfg.n))]);
    ReachesThrough(cfg, ttls, w, w1, w2);
    BelowCardinality(cfg.n);
    var w3 := Step(cfg, ttls, w2, Decide(a));
    ReachesByStep(cfg, ttls, w2, Decide(a));
    ReachesThrough(cfg, ttls, w, w2, w3);
    assert w3.clients == w.clients[a := Stamping(w.now, ttl, Below(cfg.n), w.now)];
  }

  /** All keys that may expire do. */
  lemma {:induction false} ExpireRemaining(cfg: Config, ttls: iset<real>, w: World, key: Key, k: nat)
    requires k <= cfg.n && w.now >= key.safeUntil
    requires w.nodes == Filled(cfg.n, k, None, Some(key))
    ensures Reaches(cfg, ttls, w, w.(nodes := Filled(cfg.n, cfg.n, None, None)))
    decreases cfg.n - k
  {
    if k == cfg.n {
      assert w.nodes == Filled(cfg.n, cfg.n, None, None);
      assert w == w.(nodes := Filled(cfg.n, cfg.n, None, None));
      assert IsRun(cfg, ttls, w, []) && After(cfg, ttls, w, []) == w;
    } else {
      var w' := Step(cfg, ttls, w, Expire(k));
      assert w'.nodes == Filled(cfg.n, k + 1, None, Some(key));
      ReachesByStep(cfg, ttls, w, Expire(k));
      ExpireRemaining(cfg, ttls, w', key, k + 1);
      ReachesThrough(cfg, ttls, w, w', w.(nodes := Filled(cfg.n, cfg.n, None, None)));
    }
  }

  /** A client that got everything at once and stamps as late as allowed. */
  lemma StampLate(cfg: Config, ttls: iset<real>, w: World, a: Owner, ttl: real, delay: real)
    requires 0.0 <= delay <= cfg.gap
    requires ClientOf(w, a) == Stamping(w.now, ttl, Below(cfg.n), w.now)
    ensures Reaches(cfg, ttls, w,
              World(w.now + delay, w.nodes,
                    w.clients[a := Holding(w.now + delay + ttl - Drift(cfg, ttl), Below(cfg.n))]))
  {
    var w1 := Step(cfg, ttls, w, Tick(w.now + delay));
    ReachesByStep(cfg, ttls, w, Tick(w.now + delay));
    assert ClientOf(w1, a) == ClientOf(w, a);
    var w2 := Step(cfg, ttls, w1, Stamp(a));
    ReachesByStep(cfg, ttls, w1, Stamp(a));
    ReachesThrough(cfg, ttls, w, w1, w2);
    assert w2 == World(w.now + delay, w.nodes,
                       w.clients[a := Holding(w.now + delay + ttl - Drift(cfg, ttl), Below(cfg.n))]);
  }

  /** If the margin does not cover a usable time-to-live, some run lets two owners hold the lock at once. */
  lemma WithoutMarginUnsafe(cfg: Config, ttls: iset<real>, ttl: real)
    requires cfg.n >= 1 && cfg.gap >= 0.0
    requires ttl in ttls && ttl > 0.0 && ttl > Drift(cfg, ttl) && Early(cfg, ttl) + cfg.gap > Drift(cfg, ttl)
    ensures exists w :: Reaches(cfg, ttls, Initial(cfg), w) && !Exclusive(w)
  {
    var a, b := Owner("a"), Owner("b");
    var w0, free, end := Initial(cfg), Filled(cfg.n, cfg.n, None, None), ttl - Early(cfg, ttl);
    assert w0.nodes == free;
    // The first owner gets every node at time zero and stamps its expiry `gap` later.
    AcquireAtOnce(cfg, ttls, w0, a, ttl);
    var key := Key(a, end);
    var w1 := World(0.0, Filled(cfg.n, cfg.n, Some(key), None), map[a := Stamping(0.0, ttl, Below(cfg.n), 0.0)]);
    assert w0.clients[a := Stamping(0.0, ttl, Below(cfg.n), 0.0)] == w1.clients;
    StampLate(cfg, ttls, w1, a, ttl, cfg.gap);
    var holding := Holding(cfg.gap + ttl - Drift(cfg, ttl), Below(cfg.n));
    var w2 := World(cfg.gap, w1.nodes, map[a := holding]);
    assert w1.clients[a := holding] == w2.clients;
    ReachesThrough(cfg, ttls, w0, w1, w2);
    // Its keys expire before the stamped expiry.
    var t := if end > cfg.gap then end else cfg.gap;
    var w3 := Step(cfg, ttls, w2, Tick(t));
    ReachesByStep(cfg, ttls, w2, Tick(t));
    ReachesThrough(cfg, ttls, w0, w2, w3);
    assert w3.nodes == Filled(cfg.n, 0, None, Some(key));
    ExpireRemaining(cfg, ttls, w3, key, 0);
    var w4 := w3.(nodes := free);
    ReachesThrough(cfg, ttls, w0, w3, w4);
    // The second owner then gets every node.
    AcquireAtOnce(cfg, ttls, w4, b, ttl);
    var w5 := World(t, Filled(cfg.n, cfg.n, Some(Key(b, t + end)), None),
                    w4.clients[b := Stamping(t, ttl, Below(cfg.n), t)]);
    ReachesThrough(cfg, ttls, w0, w4, w5);
    StampLate(cfg, ttls, w5, b, ttl, 0.0);
    var w6 := World(t + 0.0, w5.nodes, w5.clients[b := Holding(t + 0.0 + ttl - Drift(cfg, ttl), Below(cfg.n))]);
    ReachesThrough(cfg, ttls, w0, w5, w6);
    assert Holds(w6, a) && Holds(w6, b);
  }

  /** The protocol excludes in every run exactly when the margin covers early expiry and the stamping delay. */
  lemma SafeIffMarginCovers(cfg: Config, ttls: iset<real>)
    requires cfg.n >= 1 && cfg.gap >= 0.0
    ensures (forall w :: Reaches(cfg, ttls, Initial(cfg), w) ==> Exclusive(w)) <==> MarginCovers(cfg, ttls)
  {
    if MarginCovers(cfg, ttls) {
      forall w | Reaches(cfg, ttls, Initial(cfg), w) ensures Exclusive(w) {
        var events :| IsRun(cfg, ttls, Initial(cfg), events) && After(cfg, ttls, Initial(cfg), events) == w;
        MutualExclusion(cfg, ttls, events);
      }
    } else {
      var ttl :| ttl in ttls && ttl > 0.0 && ttl > Drift(cfg, ttl) && Early(cfg, ttl) + cfg.gap > Drift(cfg, ttl);
      WithoutMarginUnsafe(cfg, ttls, ttl);
    }
  }
}
