/** The methods of the Redis lock manager, one client at a time, over the nodes' keys for one resource. */
module RedlockManagers {
  import Collections
  import opened Wrappers
  import opened RedlockProtocol

  /** What one attempt meets: the clock readings, the outcome of each command, and whether the deadline has passed. */
  datatype Attempt = Attempt(
    start: real,
    readAt: real,
    stampAt: real,
    sets: seq<Outcome>,
    safeUntil: seq<real>,
    deletes: seq<Outcome>,
    deadlinePassed: bool)

  ghost predicate Covers(t: Attempt, n: nat) {
    |t.sets| == n && |t.safeUntil| == n && |t.deletes| == n
  }

  // ---- the loops over the nodes, on values

  ghost function SetAll(nodes: seq<Node>, owner: Owner, sets: seq<Outcome>, safeUntil: seq<real>): seq<Node>
    requires |sets| == |nodes| && |safeUntil| == |nodes|
  {
    seq(|nodes|, i requires 0 <= i < |nodes| =>
      if sets[i] == NotDone then nodes[i] else AfterSet(nodes[i], owner, safeUntil[i]))
  }

  ghost function Granted(nodes: seq<Node>, sets: seq<Outcome>): set<nat>
    requires |sets| == |nodes|
  {
    set i: nat | i < |nodes| && sets[i] == Replied && nodes[i].None?
  }

  ghost function DeleteAll(nodes: seq<Node>, owner: Owner, outcomes: seq<Outcome>): seq<Node>
    requires |outcomes| == |nodes|
  {
    seq(|nodes|, i requires 0 <= i < |nodes| =>
      if outcomes[i] == NotDone then nodes[i] else AfterDelete(nodes[i], owner))
  }

  /** A time-to-live that is not positive makes the node delete the key. */
  ghost function ExtendAll(nodes: seq<Node>, owner: Owner, ttl: real, outcomes: seq<Outcome>, safeUntil: seq<real>)
    : seq<Node>
    requires |outcomes| == |nodes| && |safeUntil| == |nodes|
  {
    seq(|nodes|, i requires 0 <= i < |nodes| =>
      if outcomes[i] == NotDone then nodes[i]
      else if ttl > 0.0 then AfterExtend(nodes[i], owner, safeUntil[i])
      else AfterDelete(nodes[i], owner))
  }

  ghost function Extended(nodes: seq<Node>, owner: Owner, outcomes: seq<Outcome>): set<nat>
    requires |outcomes| == |nodes|
  {
    set i: nat | i < |nodes| && outcomes[i] == Replied && Owned(nodes[i], owner)
  }

  /** A failed attempt whose releases are all carried out leaves no key of its owner, and every other key as it was. */
  lemma FailedAttemptLeavesNothing(nodes: seq<Node>, owner: Owner, t: Attempt)
    requires Covers(t, |nodes|) && forall i :: 0 <= i < |nodes| ==> t.deletes[i] != NotDone
    ensures var after := DeleteAll(SetAll(nodes, owner, t.sets, t.safeUntil), owner, t.deletes);
            forall i :: 0 <= i < |nodes| ==> after[i] == if Owned(nodes[i], owner) then None else nodes[i]
  {}

  /** With a single node a failed attempt is not released: the owner's key stays exactly when its reply was lost. */
  lemma LostReplyKeepsKeyIff(node: Node, owner: Owner, outcome: Outcome, safeUntil: real)
    requires outcome != Replied || node.Some?
    ensures var after := SetAll([node], owner, [outcome], [safeUntil])[0];
            Owned(after, owner) <==> Owned(node, owner) || (node.None? && outcome == ReplyLost)
  {}

  /** Whatever was lost, no command of an owner changes the key of another. */
  lemma ForeignKeysUntouched(nodes: seq<Node>, owner: Owner, ttl: real, t: Attempt, outcomes: seq<Outcome>, i: nat)
    requires Covers(t, |nodes|) && |outcomes| == |nodes|
    requires i < |nodes| && nodes[i].Some? && !Owned(nodes[i], owner)
    ensures SetAll(nodes, owner, t.sets, t.safeUntil)[i] == nodes[i]
    ensures DeleteAll(nodes, owner, t.deletes)[i] == nodes[i]
    ensures ExtendAll(nodes, owner, ttl, outcomes, t.safeUntil)[i] == nodes[i]
  {}

  // ---- acquire, with its retries

  datatype Acquired = Acquired(expiresAt: Option<real>, nodes: seq<Node>)

  ghost function Attempted(cfg: Config, nodes: seq<Node>, owner: Owner, ttl: real, t: Attempt): Acquired
    requires Covers(t, |nodes|)
  {
    var after := SetAll(nodes, owner, t.sets, t.safeUntil);
    var validity := Validity(cfg, ttl, t.readAt - t.start);
    if |Granted(nodes, t.sets)| < Quorum(|nodes|) then
      Acquired(None, if |nodes| == 1 then after else DeleteAll(after, owner, t.deletes))
    else if validity > 0.0 then Acquired(Some(t.stampAt + validity), after)
    else Acquired(None, DeleteAll(after, owner, t.deletes))
  }

  /** Attempts are made until one succeeds, the deadline has passed or none is left. */
  ghost function Retried(cfg: Config, nodes: seq<Node>, owner: Owner, ttl: real, attempts: seq<Attempt>): (r: Acquired)
    requires forall t :: t in attempts ==> Covers(t, |nodes|)
    ensures |r.nodes| == |nodes|
    decreases |attempts|
  {
    if attempts == [] then Acquired(None, nodes)
    else
      assert attempts[0] in attempts;
      var r := Attempted(cfg, nodes, owner, ttl, attempts[0]);
      if r.expiresAt.Some? || attempts[0].deadlinePassed then r else Retried(cfg, r.nodes, owner, ttl, attempts[1..])
  }

  /** The moment of the stamp of the attempt that was made last: the one that returned a lock, if one did. */
  ghost function EndsAt(cfg: Config, nodes: seq<Node>, owner: Owner, ttl: real, attempts: seq<Attempt>): real
    requires attempts != [] && forall t :: t in attempts ==> Covers(t, |nodes|)
    decreases |attempts|
  {
    assert attempts[0] in attempts;
    var r := Attempted(cfg, nodes, owner, ttl, attempts[0]);
    if r.expiresAt.Some? || attempts[0].deadlinePassed || |attempts| == 1 then attempts[0].stampAt
    else EndsAt(cfg, r.nodes, owner, ttl, attempts[1..])
  }

  /** The nodes that were free and said that they set the key. */
  ghost function Answering(free: set<nat>, n: nat, t: Attempt): set<nat>
    requires Covers(t, n)
  {
    set i | i in free && i < n && t.sets[i] == Replied
  }

  /** The answers of an attempt win the lock: more than half of the nodes were free and said so, and in time. */
  ghost predicate Wins(cfg: Config, free: set<nat>, n: nat, ttl: real, t: Attempt)
    requires Covers(t, n)
  {
    && 2 * |Answering(free, n, t)| > n
    && ttl - (t.readAt - t.start) - (ttl * cfg.driftFactor + 2.0) > 0.0
  }

  ghost function FreeNodes(nodes: seq<Node>): set<nat> {
    set i: nat | i < |nodes| && nodes[i].None?
  }

  /** An attempt returns a lock exactly when its answers win it, and says until when. */
  lemma AttemptWinsIff(cfg: Config, nodes: seq<Node>, owner: Owner, ttl: real, t: Attempt)
    requires Covers(t, |nodes|)
    ensures Attempted(cfg, nodes, owner, ttl, t).expiresAt ==
            if Wins(cfg, FreeNodes(nodes), |nodes|, ttl, t)
            then Some(t.stampAt + ttl - (t.readAt - t.start) - (ttl * cfg.driftFactor + 2.0)) else None
  {
    var k, validity := |Granted(nodes, t.sets)|, Validity(cfg, ttl, t.readAt - t.start);
    assert Answering(FreeNodes(nodes), |nodes|, t) == Granted(nodes, t.sets);
    QuorumIsMajority(k, |nodes|);
    assert validity == ttl - (t.readAt - t.start) - (ttl * cfg.driftFactor + 2.0);
    assert Wins(cfg, FreeNodes(nodes), |nodes|, ttl, t) <==> k >= Quorum(|nodes|) && validity > 0.0;
  }

  /** A failed attempt can be taken back: all its deletes are carried out, or there is one node and no reply is lost. */
  ghost predicate TakenBack(t: Attempt, n: nat)
    requires Covers(t, n)
  {
    && (forall i :: 0 <= i < n ==> t.deletes[i] != NotDone)
    && (n == 1 ==> t.sets[0] != ReplyLost)
  }

  lemma FailedAttemptRestores(cfg: Config, nodes: seq<Node>, owner: Owner, ttl: real, t: Attempt)
    requires Covers(t, |nodes|) && TakenBack(t, |nodes|)
    requires forall i :: 0 <= i < |nodes| ==> !Owned(nodes[i], owner)
    requires Attempted(cfg, nodes, owner, ttl, t).expiresAt.None?
    ensures Attempted(cfg, nodes, owner, ttl, t).nodes == nodes
  {
    var after := SetAll(nodes, owner, t.sets, t.safeUntil);
    FailedAttemptLeavesNothing(nodes, owner, t);
    assert DeleteAll(after, owner, t.deletes) == nodes;
    QuorumIsMajority(|Granted(nodes, t.sets)|, |nodes|);
    if |nodes| == 1 && |Granted(nodes, t.sets)| < Quorum(1) {
      OneNodeGrants(nodes, t.sets);
      assert after == nodes;
    }
  }

  lemma OneNodeGrants(nodes: seq<Node>, sets: seq<Outcome>)
    requires |nodes| == |sets| == 1
    ensures |Granted(nodes, sets)| == if 0 in Granted(nodes, sets) then 1 else 0
  {
    assert Granted(nodes, sets) == if 0 in Granted(nodes, sets) then {0} else {};
  }

  /** The attempts before `k` lose, and none of them meets the deadline. */
  ghost predicate LoseBefore(cfg: Config, free: set<nat>, n: nat, ttl: real, attempts: seq<Attempt>, k: nat)
    requires k <= |attempts| && forall t :: t in attempts ==> Covers(t, n)
  {
    forall i :: 0 <= i < k ==> !attempts[i].deadlinePassed && !Wins(cfg, free, n, ttl, attempts[i])
  }

  ghost predicate WinsFirst(cfg: Config, free: set<nat>, n: nat, ttl: real, attempts: seq<Attempt>, k: int)
    requires forall t :: t in attempts ==> Covers(t, n)
  {
    && 0 <= k < |attempts|
    && LoseBefore(cfg, free, n, ttl, attempts, k) && Wins(cfg, free, n, ttl, attempts[k])
  }

  /**
   * As long as what it fails to win is taken back, `acquire` returns a lock exactly when one of its attempts finds
   * more than half of the nodes free and answering in time before an attempt meets the deadline, and it is the first.
   */
  lemma {:induction false} AcquireReturnsFirstWin(cfg: Config, nodes: seq<Node>, owner: Owner, ttl: real,
                                                  attempts: seq<Attempt>)
    requires forall t :: t in attempts ==> Covers(t, |nodes|) && TakenBack(t, |nodes|)
    requires forall i :: 0 <= i < |nodes| ==> !Owned(nodes[i], owner)
    ensures var r, free := Retried(cfg, nodes, owner, ttl, attempts), FreeNodes(nodes);
            && (r.expiresAt.None? ==> r.nodes == nodes)
            && (r.expiresAt.Some? <==> exists k :: WinsFirst(cfg, free, |nodes|, ttl, attempts, k))
            && forall k :: WinsFirst(cfg, free, |nodes|, ttl, attempts, k) ==>
                 r == Attempted(cfg, nodes, owner, ttl, attempts[k])
    decreases |attempts|
  {
    if attempts != [] {
      var t, n, free := attempts[0], |nodes|, FreeNodes(nodes);
      assert t in attempts;
      AttemptWinsIff(cfg, nodes, owner, ttl, t);
      if Wins(cfg, free, n, ttl, t) {
        FirstWins(cfg, free, n, ttl, attempts);
        assert WinsFirst(cfg, free, n, ttl, attempts, 0);
      } else {
        FailedAttemptRestores(cfg, nodes, owner, ttl, t);
        FirstLoses(cfg, free, n, ttl, attempts);
        if !t.deadlinePassed {
          AcquireReturnsFirstWin(cfg, nodes, owner, ttl, attempts[1..]);
        }
      }
    }
  }

  lemma FirstWins(cfg: Config, free: set<nat>, n: nat, ttl: real, attempts: seq<Attempt>)
    requires attempts != [] && (forall t :: t in attempts ==> Covers(t, n)) && Wins(cfg, free, n, ttl, attempts[0])
    ensures forall k :: WinsFirst(cfg, free, n, ttl, attempts, k) <==> k == 0
  {}

  lemma FirstLoses(cfg: Config, free: set<nat>, n: nat, ttl: real, attempts: seq<Attempt>)
    requires attempts != [] && (forall t :: t in attempts ==> Covers(t, n)) && !Wins(cfg, free, n, ttl, attempts[0])
    ensures forall t :: t in attempts[1..] ==> Covers(t, n)
    ensures forall k :: WinsFirst(cfg, free, n, ttl, attempts, k) <==>
              !attempts[0].deadlinePassed && WinsFirst(cfg, free, n, ttl, attempts[1..], k - 1)
    ensures forall k :: WinsFirst(cfg, free, n, ttl, attempts[1..], k) && !attempts[0].deadlinePassed ==>
              WinsFirst(cfg, free, n, ttl, attempts, k + 1)
  {
    var more := attempts[1..];
    forall k
      ensures WinsFirst(cfg, free, n, ttl, attempts, k) <==>
              !attempts[0].deadlinePassed && WinsFirst(cfg, free, n, ttl, more, k - 1)
    {
      if 0 < k < |attempts| {
        assert forall i :: 0 <= i < k - 1 ==> more[i] == attempts[i + 1];
        assert forall i :: 0 < i < k ==> attempts[i] == more[i - 1];
      }
    }
    forall k | WinsFirst(cfg, free, n, ttl, more, k) && !attempts[0].deadlinePassed
      ensures WinsFirst(cfg, free, n, ttl, attempts, k + 1)
    {
      assert WinsFirst(cfg, free, n, ttl, more, k + 1 - 1);
    }
  }

  /** The returned expiry, less the stamping delay, lies within the keys' lifetime less the drift margin. */
  lemma {:induction false} ExpiryWithinMargin(cfg: Config, nodes: seq<Node>, owner: Owner, ttl: real,
        attempts: seq<Attempt>)
    requires forall t :: t in attempts ==> Covers(t, |nodes|)
    ensures var r := Retried(cfg, nodes, owner, ttl, attempts);
            r.expiresAt.Some? ==>
              exists t :: t in attempts && t.stampAt == EndsAt(cfg, nodes, owner, ttl, attempts)
                && r.expiresAt.value == t.start + ttl - (ttl * cfg.driftFactor + 2.0) + (t.stampAt - t.readAt)
                && t.readAt - t.start < ttl - (ttl * cfg.driftFactor + 2.0)
                && 2 * |set i | 0 <= i < |nodes| && t.sets[i] == Replied && Owned(r.nodes[i], owner)| > |nodes|
    decreases |attempts|
  {
    if attempts != [] {
      var t := attempts[0];
      assert t in attempts;
      var r := Attempted(cfg, nodes, owner, ttl, t);
      if r.expiresAt.Some? {
        var owned := set i | 0 <= i < |nodes| && t.sets[i] == Replied && Owned(r.nodes[i], owner);
        Collections.SubsetCardinality(Granted(nodes, t.sets), owned);
        QuorumIsMajority(|Granted(nodes, t.sets)|, |nodes|);
      } else if !t.deadlinePassed {
        ExpiryWithinMargin(cfg, r.nodes, owner, ttl, attempts[1..]);
      }
    }
  }

  lemma {:induction false} NoNodesNoLock(cfg: Config, nodes: seq<Node>, owner: Owner, ttl: real, attempts: seq<Attempt>)
    requires nodes == [] && forall t :: t in attempts ==> Covers(t, |nodes|)
    ensures Retried(cfg, nodes, owner, ttl, attempts) == Acquired(None, nodes)
  {
    if attempts != [] {
      assert attempts[0] in attempts;
      assert Granted(nodes, attempts[0].sets) == {};
      NoNodesNoLock(cfg, nodes, owner, ttl, attempts[1..]);
    }
  }

  // ---- an undisturbed attempt is a run of the protocol

  /** The SETs of the attempt are carried out at the given moments; the clock is read and the expiry stamped after. */
  ghost predicate Timely(cfg: Config, ttl: real, t: Attempt, at: seq<real>) {
    && Covers(t, cfg.n) && |at| == cfg.n
    && (forall i :: 0 <= i < cfg.n ==> t.start <= at[i] <= t.readAt && t.safeUntil[i] == at[i] + ttl - Early(cfg, ttl))
    && (forall i, j :: 0 <= i < j < cfg.n ==> at[i] <= at[j])
    && t.start <= t.readAt <= t.stampAt <= t.readAt + cfg.gap
  }

  /** The other clients are as before, and no time has passed beyond the given moment. */
  ghost predicate OnlyActed(w: World, w': World, a: Owner, upTo: real) {
    && w'.now <= upTo
    && forall b {:trigger ClientOf(w', b)} :: b != a ==> ClientOf(w', b) == ClientOf(w, b)
  }

  lemma OnlyActedThrough(w: World, w1: World, w': World, a: Owner, upTo: real, end: real)
    requires OnlyActed(w, w1, a, upTo) && OnlyActed(w1, w', a, end)
    ensures OnlyActed(w, w', a, end)
  {
    forall b {:trigger ClientOf(w', b)} | b != a ensures ClientOf(w', b) == ClientOf(w, b) {
      assert ClientOf(w', b) == ClientOf(w1, b);
    }
  }

  ghost function GrantedBelow(nodes: seq<Node>, sets: seq<Outcome>, k: nat): set<nat>
    requires |sets| == |nodes|
  {
    set i: nat | i < |nodes| && i < k && sets[i] == Replied && nodes[i].None?
  }

  ghost predicate MidSets(cfg: Config, w: World, a: Owner, ttl: real, t: Attempt, at: seq<real>, nodes: seq<Node>,
        k: nat) {
    && Timely(cfg, ttl, t, at) && |nodes| == cfg.n && k <= cfg.n
    && w.now <= (if k < cfg.n then at[k] else t.readAt)
    && w.nodes == SetAll(nodes, a, t.sets, t.safeUntil)[..k] + nodes[k..]
    && ClientOf(w, a) == Acquiring(t.start, ttl, k, GrantedBelow(nodes, t.sets, k))
  }

  lemma OneSet(cfg: Config, ttls: iset<real>, w: World, a: Owner, ttl: real, t: Attempt, at: seq<real>,
        nodes: seq<Node>, k: nat)
    requires MidSets(cfg, w, a, ttl, t, at, nodes, k) && k < cfg.n && ttl > 0.0
    ensures Enabled(cfg, ttls, w, Tick(at[k])) && Enabled(cfg, ttls, w.(now := at[k]), TrySet(a, t.sets[k]))
    ensures MidSets(cfg, AfterTrySet(cfg, w.(now := at[k]), a, t.sets[k]), a, ttl, t, at, nodes, k + 1)
  {
    var v := w.(now := at[k]);
    var w' := AfterTrySet(cfg, v, a, t.sets[k]);
    var all := SetAll(nodes, a, t.sets, t.safeUntil);
    assert w.nodes[k] == nodes[k];
    assert w'.nodes == all[..k + 1] + nodes[k + 1..];
    var g := GrantedBelow(nodes, t.sets, k);
    assert GrantedBelow(nodes, t.sets, k + 1) == if t.sets[k] == Replied && nodes[k].None? then g + {k} else g;
  }

  lemma {:induction false} SetLoop(cfg: Config, ttls: iset<real>, w: World, a: Owner, ttl: real, t: Attempt,
        at: seq<real>, nodes: seq<Node>, k: nat)
    requires MidSets(cfg, w, a, ttl, t, at, nodes, k) && ttl > 0.0
    ensures exists w' :: Reaches(cfg, ttls, w, w') && MidSets(cfg, w', a, ttl, t, at, nodes, cfg.n)
                         && OnlyActed(w, w', a, t.readAt)
    decreases cfg.n - k
  {
    if k == cfg.n {
      assert IsRun(cfg, ttls, w, []) && After(cfg, ttls, w, []) == w;
      assert Reaches(cfg, ttls, w, w);
    } else {
      OneSet(cfg, ttls, w, a, ttl, t, at, nodes, k);
      var v := w.(now := at[k]);
      var w1 := AfterTrySet(cfg, v, a, t.sets[k]);
      ReachesByStep(cfg, ttls, w, Tick(at[k]));
      ReachesByStep(cfg, ttls, v, TrySet(a, t.sets[k]));
      ReachesThrough(cfg, ttls, w, v, w1);
      SetLoop(cfg, ttls, w1, a, ttl, t, at, nodes, k + 1);
      var w' :| Reaches(cfg, ttls, w1, w') && MidSets(cfg, w', a, ttl, t, at, nodes, cfg.n)
                && OnlyActed(w1, w', a, t.readAt);
      ReachesThrough(cfg, ttls, w, w1, w');
      assert w1.clients == w.clients[a := ClientOf(w1, a)];
      OnlyActedThrough(w, w1, w', a, at[k], t.readAt);
    }
  }

  ghost predicate MidDeletes(cfg: Config, w: World, a: Owner, deletes: seq<Outcome>, nodes: seq<Node>, k: nat) {
    && |deletes| == |nodes| == cfg.n && k <= cfg.n
    && w.nodes == DeleteAll(nodes, a, deletes)[..k] + nodes[k..]
    && ClientOf(w, a).Releasing? && ClientOf(w, a).next == k
  }

  lemma {:induction false} DeleteLoop(cfg: Config, ttls: iset<real>, w: World, a: Owner, deletes: seq<Outcome>,
                                      nodes: seq<Node>, k: nat)
    requires MidDeletes(cfg, w, a, deletes, nodes, k)
    ensures Reaches(cfg, ttls, w, World(w.now, DeleteAll(nodes, a, deletes), w.clients[a := Idle]))
    decreases cfg.n - k
  {
    var all := DeleteAll(nodes, a, deletes);
    var end := World(w.now, all, w.clients[a := Idle]);
    if k == cfg.n {
      assert w.nodes == all;
      ReachesByStep(cfg, ttls, w, Released(a));
    } else {
      var e := TryDelete(a, deletes[k] != NotDone);
      var w1 := Step(cfg, ttls, w, e);
      assert w.nodes[k] == nodes[k];
      assert w1.nodes == all[..k + 1] + nodes[k + 1..];
      ReachesByStep(cfg, ttls, w, e);
      DeleteLoop(cfg, ttls, w1, a, deletes, nodes, k + 1);
      assert w1.clients[a := Idle] == w.clients[a := Idle];
      ReachesThrough(cfg, ttls, w, w1, end);
    }
  }

  /** `release` by the holder is a run of the protocol, after which the client has nothing. */
  lemma ReleaseIsRun(cfg: Config, ttls: iset<real>, w: World, a: Owner, deletes: seq<Outcome>)
    requires |w.nodes| == |deletes| == cfg.n && ClientOf(w, a).Holding?
    ensures Reaches(cfg, ttls, w, World(w.now, DeleteAll(w.nodes, a, deletes), w.clients[a := Idle]))
  {
    var w1 := Step(cfg, ttls, w, Release(a));
    ReachesByStep(cfg, ttls, w, Release(a));
    assert w1.nodes == DeleteAll(w.nodes, a, deletes)[..0] + w.nodes[0..];
    DeleteLoop(cfg, ttls, w1, a, deletes, w.nodes, 0);
    assert w1.clients[a := Idle] == w.clients[a := Idle];
    ReachesThrough(cfg, ttls, w, w1, World(w.now, DeleteAll(w.nodes, a, deletes), w.clients[a := Idle]));
  }

  /** The client after an attempt: a holder of the returned lock, or idle. */
  ghost predicate Ends(w: World, a: Owner, r: Acquired) {
    && w.nodes == r.nodes
    && match r.expiresAt
       case None => ClientOf(w, a).Idle?
       case Some(until) => ClientOf(w, a).Holding? && ClientOf(w, a).until == until
  }

  lemma AfterTheSets(cfg: Config, ttls: iset<real>, w: World, a: Owner, ttl: real, t: Attempt, at: seq<real>,
                     nodes: seq<Node>)
    requires MidSets(cfg, w, a, ttl, t, at, nodes, cfg.n)
    ensures exists w' :: Reaches(cfg, ttls, w, w') && Ends(w', a, Attempted(cfg, nodes, a, ttl, t))
                         && OnlyActed(w, w', a, t.stampAt)
  {
    var all := SetAll(nodes, a, t.sets, t.safeUntil);
    assert w.nodes == all;
    assert GrantedBelow(nodes, t.sets, cfg.n) == Granted(nodes, t.sets);
    var w1 := Step(cfg, ttls, w, Tick(t.readAt));
    ReachesByStep(cfg, ttls, w, Tick(t.readAt));
    assert ClientOf(w1, a) == ClientOf(w, a);
    var w2 := Step(cfg, ttls, w1, Decide(a));
    ReachesByStep(cfg, ttls, w1, Decide(a));
    ReachesThrough(cfg, ttls, w, w1, w2);
    if ClientOf(w2, a).Releasing? {
      AfterDecideRelease(cfg, ttls, w, w2, a, t.deletes, all);
    } else if ClientOf(w2, a).Stamping? {
      AfterDecideStamp(cfg, ttls, w, w2, a, t);
    }
  }

  lemma AfterDecideRelease(cfg: Config, ttls: iset<real>, w: World, w2: World, a: Owner, deletes: seq<Outcome>,
                           all: seq<Node>)
    requires Reaches(cfg, ttls, w, w2) && w2.nodes == all && |all| == |deletes| == cfg.n
    requires ClientOf(w2, a) == Releasing(0, {})
    ensures Reaches(cfg, ttls, w, World(w2.now, DeleteAll(all, a, deletes), w2.clients[a := Idle]))
  {
    assert w2.nodes == DeleteAll(all, a, deletes)[..0] + all[0..];
    DeleteLoop(cfg, ttls, w2, a, deletes, all, 0);
    ReachesThrough(cfg, ttls, w, w2, World(w2.now, DeleteAll(all, a, deletes), w2.clients[a := Idle]));
  }

  lemma AfterDecideStamp(cfg: Config, ttls: iset<real>, w: World, w2: World, a: Owner, t: Attempt)
    requires Reaches(cfg, ttls, w, w2) && ClientOf(w2, a).Stamping?
    requires w2.now <= t.stampAt <= ClientOf(w2, a).readAt + cfg.gap
    ensures var c := ClientOf(w2, a);
            Reaches(cfg, ttls, w, World(t.stampAt, w2.nodes,
              w2.clients[a := Holding(t.stampAt + Validity(cfg, c.ttl, c.readAt - c.start), c.got)]))
  {
    var w3 := Step(cfg, ttls, w2, Tick(t.stampAt));
    ReachesByStep(cfg, ttls, w2, Tick(t.stampAt));
    ReachesThrough(cfg, ttls, w, w2, w3);
    assert ClientOf(w3, a) == ClientOf(w2, a);
    var w4 := Step(cfg, ttls, w3, Stamp(a));
    ReachesByStep(cfg, ttls, w3, Stamp(a));
    ReachesThrough(cfg, ttls, w, w3, w4);
  }

  lemma AttemptStarts(cfg: Config, ttls: iset<real>, w: World, a: Owner, ttl: real, t: Attempt, at: seq<real>)
    requires |w.nodes| == cfg.n && ClientOf(w, a).Idle? && w.now <= t.start
    requires ttl in ttls && Timely(cfg, ttl, t, at)
    ensures var w' := World(t.start, w.nodes, w.clients[a := Acquiring(t.start, ttl, 0, {})]);
            Reaches(cfg, ttls, w, w') && MidSets(cfg, w', a, ttl, t, at, w.nodes, 0)
  {
    var w1 := Step(cfg, ttls, w, Tick(t.start));
    ReachesByStep(cfg, ttls, w, Tick(t.start));
    assert ClientOf(w1, a) == ClientOf(w, a);
    var w2 := Step(cfg, ttls, w1, Start(a, ttl));
    ReachesByStep(cfg, ttls, w1, Start(a, ttl));
    ReachesThrough(cfg, ttls, w, w1, w2);
    assert GrantedBelow(w.nodes, t.sets, 0) == {};
    assert w2.nodes == SetAll(w.nodes, a, t.sets, t.safeUntil)[..0] + w.nodes[0..];
  }

  /** An attempt that nothing interrupts is a run of the protocol with the same outcome on client and nodes. */
  lemma AttemptIsRun(cfg: Config, ttls: iset<real>, w: World, a: Owner, ttl: real, t: Attempt, at: seq<real>)
    requires |w.nodes| == cfg.n && ClientOf(w, a).Idle? && w.now <= t.start
    requires ttl in ttls && ttl > 0.0 && Timely(cfg, ttl, t, at)
    ensures exists w' :: Reaches(cfg, ttls, w, w') && Ends(w', a, Attempted(cfg, w.nodes, a, ttl, t))
                         && OnlyActed(w, w', a, t.stampAt)
  {
    AttemptStarts(cfg, ttls, w, a, ttl, t, at);
    var w2 := World(t.start, w.nodes, w.clients[a := Acquiring(t.start, ttl, 0, {})]);
    SetLoop(cfg, ttls, w2, a, ttl, t, at, w.nodes, 0);
    var w3 :| Reaches(cfg, ttls, w2, w3) && MidSets(cfg, w3, a, ttl, t, at, w.nodes, cfg.n)
              && OnlyActed(w2, w3, a, t.readAt);
    AfterTheSets(cfg, ttls, w3, a, ttl, t, at, w.nodes);
    var w' :| Reaches(cfg, ttls, w3, w') && Ends(w', a, Attempted(cfg, w.nodes, a, ttl, t))
              && OnlyActed(w3, w', a, t.stampAt);
    ReachesThrough(cfg, ttls, w, w2, w3);
    ReachesThrough(cfg, ttls, w, w3, w');
    OnlyActedThrough(w, w2, w3, a, t.start, t.readAt);
    OnlyActedThrough(w, w3, w', a, t.readAt, t.stampAt);
  }

  /** The attempts are timely and follow one another. */
  ghost predicate TimelyAll(cfg: Config, ttl: real, attempts: seq<Attempt>, ats: seq<seq<real>>, now: real) {
    && |ats| == |attempts|
    && (forall k :: 0 <= k < |attempts| ==> Timely(cfg, ttl, attempts[k], ats[k]))
    && (attempts != [] ==> now <= attempts[0].start)
    && (forall k, m :: 0 <= k < |attempts| && m == k + 1 < |attempts| ==> attempts[k].stampAt <= attempts[m].start)
  }

  /** `acquire` with all its attempts, when nothing interrupts it, is a run of the protocol with the same outcome. */
  lemma {:induction false} AcquireIsRun(cfg: Config, ttls: iset<real>, w: World, a: Owner, ttl: real,
                                        attempts: seq<Attempt>, ats: seq<seq<real>>)
    requires |w.nodes| == cfg.n && ClientOf(w, a).Idle? && ttl in ttls && ttl > 0.0
    requires TimelyAll(cfg, ttl, attempts, ats, w.now)
    ensures forall t :: t in attempts ==> Covers(t, cfg.n)
    ensures exists w' :: Reaches(cfg, ttls, w, w') && Ends(w', a, Retried(cfg, w.nodes, a, ttl, attempts))
                         && OnlyActed(w, w', a, if attempts == [] then w.now
                                                else EndsAt(cfg, w.nodes, a, ttl, attempts))
    decreases |attempts|
  {
    assert forall k :: 0 <= k < |attempts| ==> Timely(cfg, ttl, attempts[k], ats[k]);
    if attempts == [] {
      assert IsRun(cfg, ttls, w, []) && After(cfg, ttls, w, []) == w;
      assert Reaches(cfg, ttls, w, w);
    } else {
      var t, more, last := attempts[0], attempts[1..], EndsAt(cfg, w.nodes, a, ttl, attempts);
      AttemptIsRun(cfg, ttls, w, a, ttl, t, ats[0]);
      var w1 :| Reaches(cfg, ttls, w, w1) && Ends(w1, a, Attempted(cfg, w.nodes, a, ttl, t))
                && OnlyActed(w, w1, a, t.stampAt);
      if ClientOf(w1, a).Idle? && !t.deadlinePassed {
        LaterAttempts(cfg, ttl, attempts, ats, w.now, w1.now);
        AcquireIsRun(cfg, ttls, w1, a, ttl, more, ats[1..]);
        var w' :| Reaches(cfg, ttls, w1, w') && Ends(w', a, Retried(cfg, w1.nodes, a, ttl, more))
                  && OnlyActed(w1, w', a, if more == [] then w1.now else EndsAt(cfg, w1.nodes, a, ttl, more));
        ReachesThrough(cfg, ttls, w, w1, w');
        OnlyActedThrough(w, w1, w', a, t.stampAt, last);
      } else {
        assert OnlyActed(w, w1, a, last);
      }
    }
  }

  lemma LaterAttempts(cfg: Config, ttl: real, attempts: seq<Attempt>, ats: seq<seq<real>>, now: real, later: real)
    requires TimelyAll(cfg, ttl, attempts, ats, now) && attempts != [] && later <= attempts[0].stampAt
    ensures TimelyAll(cfg, ttl, attempts[1..], ats[1..], later)
  {
    var more := attempts[1..];
    assert forall k :: 0 <= k < |more| ==> more[k] == attempts[k + 1] && ats[1..][k] == ats[k + 1];
    if more != [] {
      assert attempts[0].stampAt <= attempts[1].start;
    }
  }

  /**
   * What mutual exclusion says of `acquire`: if it returns a lock while another owner holds one, then one of the two
   * has expired when the attempt that returned it ends.
   */
  lemma AcquireExcludes(cfg: Config, ttls: iset<real>, w: World, a: Owner, ttl: real, attempts: seq<Attempt>,
                        ats: seq<seq<real>>, b: Owner)
    requires MarginCovers(cfg, ttls) && cfg.gap >= 0.0 && Reaches(cfg, ttls, Initial(cfg), w)
    requires |w.nodes| == cfg.n && ClientOf(w, a).Idle? && ttl in ttls && ttl > 0.0
    requires TimelyAll(cfg, ttl, attempts, ats, w.now) && attempts != []
    requires a != b && (ClientOf(w, b).Holding? || ClientOf(w, b).Extending?)
    ensures forall t :: t in attempts ==> Covers(t, cfg.n)
    ensures var r := Retried(cfg, w.nodes, a, ttl, attempts);
            var end := EndsAt(cfg, w.nodes, a, ttl, attempts);
            r.expiresAt.Some? ==> r.expiresAt.value <= end || ClientOf(w, b).until <= end
  {
    AcquireIsRun(cfg, ttls, w, a, ttl, attempts, ats);
    var end := EndsAt(cfg, w.nodes, a, ttl, attempts);
    var w' :| Reaches(cfg, ttls, w, w') && Ends(w', a, Retried(cfg, w.nodes, a, ttl, attempts))
              && OnlyActed(w, w', a, end);
    ReachesThrough(cfg, ttls, Initial(cfg), w, w');
    var events :| IsRun(cfg, ttls, Initial(cfg), events) && After(cfg, ttls, Initial(cfg), events) == w';
    MutualExclusion(cfg, ttls, events);
    assert ClientOf(w', b) == ClientOf(w, b);
    assert !(Holds(w', a) && Holds(w', b));
  }

  // ---- extend

  /** The commands of the extension are carried out at the given moments. */
  ghost predicate ExtendTimely(cfg: Config, ttl: real, start: real, at: seq<real>, outcomes: seq<Outcome>,
                               safeUntil: seq<real>)
  {
    && |at| == |outcomes| == |safeUntil| == cfg.n
    && (forall i :: 0 <= i < cfg.n ==> start <= at[i] && safeUntil[i] == at[i] + ttl - Early(cfg, ttl))
    && (forall i, j :: 0 <= i < j < cfg.n ==> at[i] <= at[j])
  }

  ghost function ExtendedBelow(nodes: seq<Node>, owner: Owner, outcomes: seq<Outcome>, k: nat): set<nat>
    requires |outcomes| == |nodes|
  {
    set i: nat | i < |nodes| && i < k && outcomes[i] == Replied && Owned(nodes[i], owner)
  }

  ghost predicate MidExtends(cfg: Config, w: World, a: Owner, held: Client, ttl: real, start: real, at: seq<real>,
                             outcomes: seq<Outcome>, safeUntil: seq<real>, nodes: seq<Node>, k: nat)
  {
    && ExtendTimely(cfg, ttl, start, at, outcomes, safeUntil) && |nodes| == cfg.n && k <= cfg.n && ttl > 0.0
    && held.Holding? && (k < cfg.n ==> w.now <= at[k])
    && w.nodes == ExtendAll(nodes, a, ttl, outcomes, safeUntil)[..k] + nodes[k..]
    && ClientOf(w, a) == Extending(held.until, held.got, start, ttl, k, ExtendedBelow(nodes, a, outcomes, k))
  }

  lemma OneExtend(cfg: Config, ttls: iset<real>, w: World, a: Owner, held: Client, ttl: real, start: real,
                  at: seq<real>, outcomes: seq<Outcome>, safeUntil: seq<real>, nodes: seq<Node>, k: nat)
    requires MidExtends(cfg, w, a, held, ttl, start, at, outcomes, safeUntil, nodes, k) && k < cfg.n
    ensures Enabled(cfg, ttls, w, Tick(at[k])) && Enabled(cfg, ttls, w.(now := at[k]), TryExtend(a, outcomes[k]))
    ensures MidExtends(cfg, AfterTryExtend(cfg, w.(now := at[k]), a, outcomes[k]), a, held, ttl, start, at,
                       outcomes, safeUntil, nodes, k + 1)
  {
    var w' := AfterTryExtend(cfg, w.(now := at[k]), a, outcomes[k]);
    var all := ExtendAll(nodes, a, ttl, outcomes, safeUntil);
    assert w.nodes[k] == nodes[k];
    assert w'.nodes == all[..k + 1] + nodes[k + 1..];
    var g := ExtendedBelow(nodes, a, outcomes, k);
    assert ExtendedBelow(nodes, a, outcomes, k + 1) ==
           if outcomes[k] == Replied && Owned(nodes[k], a) then g + {k} else g;
  }

  lemma {:induction false} ExtendLoop(cfg: Config, ttls: iset<real>, w: World, a: Owner, held: Client, ttl: real,
                                      start: real, at: seq<real>, outcomes: seq<Outcome>, safeUntil: seq<real>,
                                      nodes: seq<Node>, k: nat)
    requires MidExtends(cfg, w, a, held, ttl, start, at, outcomes, safeUntil, nodes, k)
    ensures exists w' :: Reaches(cfg, ttls, w, w')
                         && MidExtends(cfg, w', a, held, ttl, start, at, outcomes, safeUntil, nodes, cfg.n)
    decreases cfg.n - k
  {
    if k == cfg.n {
      assert IsRun(cfg, ttls, w, []) && After(cfg, ttls, w, []) == w;
      assert Reaches(cfg, ttls, w, w);
    } else {
      OneExtend(cfg, ttls, w, a, held, ttl, start, at, outcomes, safeUntil, nodes, k);
      var v := w.(now := at[k]);
      var w1 := AfterTryExtend(cfg, v, a, outcomes[k]);
      ReachesByStep(cfg, ttls, w, Tick(at[k]));
      ReachesByStep(cfg, ttls, v, TryExtend(a, outcomes[k]));
      ReachesThrough(cfg, ttls, w, v, w1);
      ExtendLoop(cfg, ttls, w1, a, held, ttl, start, at, outcomes, safeUntil, nodes, k + 1);
      var w' :| Reaches(cfg, ttls, w1, w')
                && MidExtends(cfg, w', a, held, ttl, start, at, outcomes, safeUntil, nodes, cfg.n);
      ReachesThrough(cfg, ttls, w, w1, w');
    }
  }

  /**
   * An `extend` that does not shorten the lock and that nothing interrupts is a run of the protocol: when it answers
   * true the lock is protected until its start plus the time-to-live less the margin.
   */
  lemma ExtendIsRun(cfg: Config, ttls: iset<real>, w: World, a: Owner, ttl: real, at: seq<real>,
                    outcomes: seq<Outcome>, safeUntil: seq<real>)
    requires |w.nodes| == cfg.n && ClientOf(w, a).Holding? && ttl in ttls && ttl > 0.0
    requires w.now + ttl - Drift(cfg, ttl) >= ClientOf(w, a).until
    requires ExtendTimely(cfg, ttl, w.now, at, outcomes, safeUntil)
    ensures exists w' :: Reaches(cfg, ttls, w, w')
                         && w'.nodes == ExtendAll(w.nodes, a, ttl, outcomes, safeUntil) && ClientOf(w', a).Holding?
                         && ClientOf(w', a).until ==
                            if 2 * |Extended(w.nodes, a, outcomes)| > cfg.n
                            then w.now + ttl - (ttl * cfg.driftFactor + 2.0) else ClientOf(w, a).until
  {
    ExtendReaches(cfg, ttls, w, a, ttl, at, outcomes, safeUntil);
    QuorumIsMajority(|Extended(w.nodes, a, outcomes)|, cfg.n);
  }

  /** The world after an extension on which the given nodes answered. */
  ghost predicate HasExtended(cfg: Config, w: World, a: Owner, ttl: real, count: nat, w': World) {
    && ClientOf(w, a).Holding? && ClientOf(w', a).Holding?
    && ClientOf(w', a).until ==
       if count >= Quorum(cfg.n) then w.now + ttl - Drift(cfg, ttl) else ClientOf(w, a).until
  }

  lemma ExtendReaches(cfg: Config, ttls: iset<real>, w: World, a: Owner, ttl: real, at: seq<real>,
                      outcomes: seq<Outcome>, safeUntil: seq<real>)
    requires |w.nodes| == cfg.n && ClientOf(w, a).Holding? && ttl in ttls && ttl > 0.0
    requires w.now + ttl - Drift(cfg, ttl) >= ClientOf(w, a).until
    requires ExtendTimely(cfg, ttl, w.now, at, outcomes, safeUntil)
    ensures exists w' :: Reaches(cfg, ttls, w, w') && w'.nodes == ExtendAll(w.nodes, a, ttl, outcomes, safeUntil)
                         && HasExtended(cfg, w, a, ttl, |Extended(w.nodes, a, outcomes)|, w')
  {
    var held := ClientOf(w, a);
    var w1 := Step(cfg, ttls, w, StartExtend(a, ttl));
    ReachesByStep(cfg, ttls, w, StartExtend(a, ttl));
    var all := ExtendAll(w.nodes, a, ttl, outcomes, safeUntil);
    assert ExtendedBelow(w.nodes, a, outcomes, 0) == {};
    assert w1.nodes == all[..0] + w.nodes[0..];
    ExtendLoop(cfg, ttls, w1, a, held, ttl, w.now, at, outcomes, safeUntil, w.nodes, 0);
    var w2 :| Reaches(cfg, ttls, w1, w2)
              && MidExtends(cfg, w2, a, held, ttl, w.now, at, outcomes, safeUntil, w.nodes, cfg.n);
    ReachesThrough(cfg, ttls, w, w1, w2);
    assert w2.nodes == all;
    assert ExtendedBelow(w.nodes, a, outcomes, cfg.n) == Extended(w.nodes, a, outcomes);
    var w3 := Step(cfg, ttls, w2, FinishExtend(a));
    ReachesByStep(cfg, ttls, w2, FinishExtend(a));
    ReachesThrough(cfg, ttls, w, w2, w3);
  }

  class RedisLockManager {
    const cfg: Config
    const nodes: array<Node>

    constructor (cfg: Config, nodes: array<Node>)
      requires cfg.n == nodes.Length
      ensures this.cfg == cfg && this.nodes == nodes
    {
      this.cfg, this.nodes := cfg, nodes;
    }

    /** The loop of SETs in `_acquire_redlock`, and with a single node `_acquire_single`. */
    method SetOnNodes(owner: Owner, sets: seq<Outcome>, safeUntil: seq<real>) returns (count: nat)
      requires |sets| == nodes.Length && |safeUntil| == nodes.Length
      modifies nodes
      ensures nodes[..] == SetAll(old(nodes[..]), owner, sets, safeUntil)
      ensures count == |Granted(old(nodes[..]), sets)|
    {
      count := 0;
      ghost var counted: set<nat> := {};
      for i := 0 to nodes.Length
        invariant forall j :: 0 <= j < i ==> nodes[j] == SetAll(old(nodes[..]), owner, sets, safeUntil)[j]
        invariant forall j :: i <= j < nodes.Length ==> nodes[j] == old(nodes[j])
        invariant count == |counted| && forall j: nat :: j in counted <==> j < i && j in Granted(old(nodes[..]), sets)
      {
        if sets[i] != NotDone {
          if nodes[i].None? && sets[i] == Replied {
            count, counted := count + 1, counted + {i};
          }
          nodes[i] := AfterSet(nodes[i], owner, safeUntil[i]);
        }
      }
      assert counted == Granted(old(nodes[..]), sets);
    }

    /** `_release_all`, and `release` for a given owner: it reports whether a node answered that it deleted the key. */
    method ReleaseAll(owner: Owner, outcomes: seq<Outcome>) returns (released: bool)
      requires |outcomes| == nodes.Length
      modifies nodes
      ensures nodes[..] == DeleteAll(old(nodes[..]), owner, outcomes)
      ensures released <==>
                exists i :: 0 <= i < nodes.Length && outcomes[i] == Replied && Owned(old(nodes[..])[i], owner)
    {
      released := false;
      for i := 0 to nodes.Length
        invariant forall j :: 0 <= j < i ==> nodes[j] == DeleteAll(old(nodes[..]), owner, outcomes)[j]
        invariant forall j :: i <= j < nodes.Length ==> nodes[j] == old(nodes[j])
        invariant released <==> exists j :: 0 <= j < i && outcomes[j] == Replied && Owned(old(nodes[..])[j], owner)
      {
        if outcomes[i] != NotDone {
          if Owned(nodes[i], owner) && outcomes[i] == Replied {
            released := true;
          }
          nodes[i] := AfterDelete(nodes[i], owner);
        }
      }
    }

    /** `_acquire_redlock`, and `_acquire_single` when there is one node. */
    method TryAcquire(owner: Owner, t: Attempt) returns (acquired: bool)
      requires Covers(t, nodes.Length)
      modifies nodes
      ensures acquired <==> 2 * |Granted(old(nodes[..]), t.sets)| > nodes.Length
      ensures nodes[..] ==
              var after := SetAll(old(nodes[..]), owner, t.sets, t.safeUntil);
              if acquired || nodes.Length == 1 then after else DeleteAll(after, owner, t.deletes)
    {
      var count := SetOnNodes(owner, t.sets, t.safeUntil);
      QuorumIsMajority(count, nodes.Length);
      acquired := count >= Quorum(nodes.Length);
      if !acquired && nodes.Length != 1 {
        var _ := ReleaseAll(owner, t.deletes);
      }
    }

    /** One turn of the loop of `acquire`. */
    method MakeAttempt(owner: Owner, ttl: real, t: Attempt) returns (expiresAt: Option<real>)
      requires Covers(t, nodes.Length)
      modifies nodes
      ensures Acquired(expiresAt, nodes[..]) == Attempted(cfg, old(nodes[..]), owner, ttl, t)
      ensures expiresAt.Some? <==> Wins(cfg, FreeNodes(old(nodes[..])), nodes.Length, ttl, t)
    {
      AttemptWinsIff(cfg, nodes[..], owner, ttl, t);
      QuorumIsMajority(|Granted(nodes[..], t.sets)|, nodes.Length);
      var acquired := TryAcquire(owner, t);
      if acquired {
        var validity := ttl - (t.readAt - t.start) - Drift(cfg, ttl);
        if validity > 0.0 {
          return Some(t.stampAt + validity);
        }
        var _ := ReleaseAll(owner, t.deletes);
      }
      return None;
    }

    /** `acquire`, with one entry of `attempts` per configured try; without a client the program raises. */
    method Acquire(owner: Owner, ttl: real, attempts: seq<Attempt>) returns (available: bool, expiresAt: Option<real>)
      requires forall t :: t in attempts ==> Covers(t, nodes.Length)
      modifies nodes
      ensures available <==> nodes.Length > 0
      ensures Acquired(expiresAt, nodes[..]) == Retried(cfg, old(nodes[..]), owner, ttl, attempts)
    {
      if nodes.Length == 0 {
        NoNodesNoLock(cfg, nodes[..], owner, ttl, attempts);
        return false, None;
      }
      ghost var goal := Retried(cfg, nodes[..], owner, ttl, attempts);
      assert attempts[0..] == attempts;
      for k := 0 to |attempts|
        invariant goal == Retried(cfg, nodes[..], owner, ttl, attempts[k..])
      {
        var t := attempts[k];
        assert attempts[k..][0] == t && attempts[k..][1..] == attempts[k + 1..];
        expiresAt := MakeAttempt(owner, ttl, t);
        if expiresAt.Some? || t.deadlinePassed {
          return true, expiresAt;
        }
      }
      return true, None;
    }

    /** `extend`; a time-to-live that is not positive deletes the key where a node carries the command out. */
    method Extend(owner: Owner, ttl: real, outcomes: seq<Outcome>, safeUntil: seq<real>) returns (extended: bool)
      requires |outcomes| == nodes.Length && |safeUntil| == nodes.Length
      modifies nodes
      ensures nodes[..] == ExtendAll(old(nodes[..]), owner, ttl, outcomes, safeUntil)
      ensures extended <==>
              2 * |set i: nat | i < nodes.Length && outcomes[i] == Replied && Owned(old(nodes[..])[i], owner)|
              > nodes.Length
    {
      ghost var answered := set i: nat | i < nodes.Length && outcomes[i] == Replied && Owned(nodes[..][i], owner);
      assert answered == Extended(nodes[..], owner, outcomes);
      if nodes.Length == 0 {
        assert answered == {};
        return false;
      }
      var count := 0;
      ghost var counted: set<nat> := {};
      for i := 0 to nodes.Length
        invariant forall j :: 0 <= j < i ==> nodes[j] == ExtendAll(old(nodes[..]), owner, ttl, outcomes, safeUntil)[j]
        invariant forall j :: i <= j < nodes.Length ==> nodes[j] == old(nodes[j])
        invariant count == |counted|
        invariant forall j: nat :: j in counted <==> j < i && j in Extended(old(nodes[..]), owner, outcomes)
      {
        if outcomes[i] != NotDone {
          if Owned(nodes[i], owner) && outcomes[i] == Replied {
            count, counted := count + 1, counted + {i};
          }
          nodes[i] := if ttl > 0.0 then AfterExtend(nodes[i], owner, safeUntil[i]) else AfterDelete(nodes[i], owner);
        }
      }
      assert counted == Extended(old(nodes[..]), owner, outcomes);
      QuorumIsMajority(count, nodes.Length);
      if nodes.Length > 1 {
        return count >= Quorum(nodes.Length);
      }
      return count > 0;
    }
  }
}
