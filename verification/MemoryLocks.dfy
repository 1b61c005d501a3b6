/** The in-memory lock manager of `locking/memory.py`: locks with a time-to-live that expire lazily. */
module MemoryLocks {
  import opened Wrappers

  datatype Resource = Resource(name: string)

  datatype Owner = Owner(name: string)

  /** A lock as a value; without an expiry it never expires. */
  datatype Lock = Lock(owner: Owner, expiresAt: Option<real>)

  type Locks = map<Resource, Lock>

  // ---- the operations, on values

  predicate Expired(expiresAt: Option<real>, now: real) {
    expiresAt.Some? && now > expiresAt.value
  }

  function ExpiryAfter(now: real, ttl: real): Option<real> {
    if ttl > 0.0 then Some(now + ttl) else None
  }

  ghost predicate Free(m: Locks, r: Resource, now: real) {
    r !in m || Expired(m[r].expiresAt, now)
  }

  datatype LockOp =
    | Acquire(r: Resource, owner: Owner, ttl: real, now: real)
    | Release(r: Resource, who: Option<Owner>, now: real)
    | Extend(r: Resource, owner: Owner, ttl: real, now: real)
    | IsLocked(r: Resource, now: real)
    | GetLockInfo(r: Resource, now: real)
    | CleanupExpired(now: real)
    | LockCount(now: real)

  datatype Observation = Granted(info: Option<Lock>) | Answer(b: bool) | Count(n: nat)

  ghost function Unexpired(m: Locks, now: real): Locks {
    map r | r in m && !Expired(m[r].expiresAt, now) :: m[r]
  }

  /** The lock a successful acquisition returns; a reentrant one without a time-to-live keeps the expiry. */
  ghost function AcquiredLock(m: Locks, r: Resource, owner: Owner, ttl: real, now: real): Option<Lock> {
    if Free(m, r, now) then Some(Lock(owner, ExpiryAfter(now, ttl)))
    else if m[r].owner == owner then Some(Lock(owner, if ttl > 0.0 then Some(now + ttl) else m[r].expiresAt))
    else None
  }

  ghost predicate Releases(m: Locks, r: Resource, who: Option<Owner>) {
    r in m && (who.Some? ==> m[r].owner == who.value)
  }

  ghost predicate Extends(m: Locks, r: Resource, owner: Owner, now: real) {
    r in m && m[r].owner == owner && !Expired(m[r].expiresAt, now)
  }

  ghost function Observe(m: Locks, op: LockOp): Observation {
    match op
    case Acquire(r, owner, ttl, now) => Granted(AcquiredLock(m, r, owner, ttl, now))
    case Release(r, who, _) => Answer(Releases(m, r, who))
    case Extend(r, owner, _, now) => Answer(Extends(m, r, owner, now))
    case IsLocked(r, now) => Answer(!Free(m, r, now))
    case GetLockInfo(r, now) => Granted(if Free(m, r, now) then None else Some(m[r]))
    case CleanupExpired(now) => Count(|m.Keys - Unexpired(m, now).Keys|)
    case LockCount(now) => Count(|Unexpired(m, now)|)
  }

  ghost function Step(m: Locks, op: LockOp): Locks {
    match op
    case Acquire(r, owner, ttl, now) =>
      var lock := AcquiredLock(m, r, owner, ttl, now);
      if lock.Some? then m[r := lock.value] else m
    case Release(r, who, _) => if Releases(m, r, who) then m - {r} else m
    case Extend(r, owner, ttl, now) =>
      if Extends(m, r, owner, now) then m[r := Lock(owner, ExpiryAfter(now, ttl))]
      else if r in m && m[r].owner == owner then m - {r}
      else m
    case IsLocked(r, now) => if Free(m, r, now) then m - {r} else m
    case GetLockInfo(r, now) => if Free(m, r, now) then m - {r} else m
    case CleanupExpired(now) => Unexpired(m, now)
    case LockCount(_) => m
  }

  ghost function After(ops: seq<LockOp>): Locks {
    if ops == [] then map[] else Step(After(ops[..|ops| - 1]), ops[|ops| - 1])
  }

  /** The clock never goes backwards, and has not passed `now`. */
  ghost predicate Timed(ops: seq<LockOp>, now: real) {
    && (forall i :: 0 <= i < |ops| ==> ops[i].now <= now)
    && (forall i, j :: 0 <= i < j < |ops| ==> ops[i].now <= ops[j].now)
  }

  // ---- mutual exclusion

  datatype Claim = Claim(owner: Owner, r: Resource)

  /** Until when each owner may count on each lock it was granted and has not released or lost; None is for ever. */
  type Claims = map<Claim, Option<real>>

  ghost predicate Holds(claims: Claims, owner: Owner, r: Resource, now: real) {
    Claim(owner, r) in claims && (
      match claims[Claim(owner, r)]
      case Some(until) => now <= until
      case None => true)
  }

  ghost predicate HeldByOther(claims: Claims, owner: Owner, r: Resource, now: real) {
    exists other {:trigger Holds(claims, other, r, now)} :: other != owner && Holds(claims, other, r, now)
  }

  ghost predicate HeldByAnyone(claims: Claims, r: Resource, now: real) {
    exists owner {:trigger Holds(claims, owner, r, now)} :: Holds(claims, owner, r, now)
  }

  /** For a time from now on, or for ever. */
  ghost function Lasting(now: real, ttl: real): Option<real> {
    if ttl > 0.0 then Some(now + ttl) else None
  }

  /**
   * What the calls mean to the owners, without a table: a lock is granted unless another owner counts on it, and
   * extended if its owner still does. Without a time-to-live a reentrant acquisition leaves the time as it was.
   */
  ghost function Told(claims: Claims, op: LockOp): Claims {
    match op
    case Acquire(r, owner, ttl, now) =>
      if HeldByOther(claims, owner, r, now) then claims
      else if ttl <= 0.0 && Holds(claims, owner, r, now) then claims
      else claims[Claim(owner, r) := Lasting(now, ttl)]
    case Release(r, who, _) => if who.Some? then claims - {Claim(who.value, r)} else claims
    case Extend(r, owner, ttl, now) =>
      if Holds(claims, owner, r, now) then claims[Claim(owner, r) := Lasting(now, ttl)]
      else claims - {Claim(owner, r)}
    case _ => claims
  }

  ghost function ClaimsAfter(ops: seq<LockOp>): Claims {
    if ops == [] then map[] else Told(ClaimsAfter(ops[..|ops| - 1]), ops[|ops| - 1])
  }

  /** Locks are released by their owners only. */
  ghost predicate NoForcedRelease(ops: seq<LockOp>) {
    forall i :: 0 <= i < |ops| ==> ops[i].Release? ==> ops[i].who.Some?
  }

  /** The unexpired locks of the table are those that owners count on, with the same owner and expiry. */
  ghost predicate Honoured(m: Locks, claims: Claims, now: real) {
    && (forall owner, r {:trigger Holds(claims, owner, r, now)} ::
          Holds(claims, owner, r, now) ==> r in m && m[r] == Lock(owner, claims[Claim(owner, r)]))
    && (forall r {:trigger Free(m, r, now)} ::
          !Free(m, r, now) ==>
            Holds(claims, m[r].owner, r, now) && claims[Claim(m[r].owner, r)] == m[r].expiresAt)
  }

  lemma HonouredLater(m: Locks, claims: Claims, now: real, later: real)
    requires Honoured(m, claims, now) && now <= later
    ensures Honoured(m, claims, later)
  {
    forall owner, r {:trigger Holds(claims, owner, r, later)} | Holds(claims, owner, r, later)
      ensures r in m && m[r] == Lock(owner, claims[Claim(owner, r)])
    {
      assert Holds(claims, owner, r, now);
    }
    forall r {:trigger Free(m, r, later)} | !Free(m, r, later)
      ensures Holds(claims, m[r].owner, r, later) && claims[Claim(m[r].owner, r)] == m[r].expiresAt
    {
      assert !Free(m, r, now);
    }
  }

  /** Who holds a resource, told by the table and by the claims. */
  lemma HolderAgrees(m: Locks, claims: Claims, owner: Owner, r: Resource, now: real)
    requires Honoured(m, claims, now)
    ensures Holds(claims, owner, r, now) <==> !Free(m, r, now) && m[r].owner == owner
    ensures Holds(claims, owner, r, now) ==> m[r].expiresAt == claims[Claim(owner, r)]
    ensures HeldByOther(claims, owner, r, now) <==> !Free(m, r, now) && m[r].owner != owner
  {
    if !Free(m, r, now) {
      assert Holds(claims, m[r].owner, r, now);
    }
    if Holds(claims, owner, r, now) {
      assert m[r] == Lock(owner, claims[Claim(owner, r)]);
    }
    if HeldByOther(claims, owner, r, now) {
      var other :| other != owner && Holds(claims, other, r, now);
      assert m[r] == Lock(other, claims[Claim(other, r)]);
    }
  }

  lemma AnyoneAgrees(m: Locks, claims: Claims, r: Resource, now: real)
    requires Honoured(m, claims, now)
    ensures HeldByAnyone(claims, r, now) <==> !Free(m, r, now)
  {
    if Free(m, r, now) {
      forall owner ensures !Holds(claims, owner, r, now) {
        HolderAgrees(m, claims, owner, r, now);
      }
    } else {
      assert Holds(claims, m[r].owner, r, now);
    }
  }

  lemma StepHonours(m: Locks, claims: Claims, op: LockOp)
    requires Honoured(m, claims, op.now) && (op.Release? ==> op.who.Some?)
    ensures Honoured(Step(m, op), Told(claims, op), op.now)
  {
    var m', claims', now := Step(m, op), Told(claims, op), op.now;
    if op.Acquire? || op.Extend? {
      HolderAgrees(m, claims, op.owner, op.r, now);
    }
    forall owner, r {:trigger Holds(claims', owner, r, now)} | Holds(claims', owner, r, now)
      ensures r in m' && m'[r] == Lock(owner, claims'[Claim(owner, r)])
    {
      if !((op.Acquire? || op.Extend?) && op.owner == owner && op.r == r) {
        assert Holds(claims, owner, r, now);
      }
    }
    forall r {:trigger Free(m', r, now)} | !Free(m', r, now)
      ensures Holds(claims', m'[r].owner, r, now) && claims'[Claim(m'[r].owner, r)] == m'[r].expiresAt
    {
      if !((op.Acquire? || op.Extend?) && op.r == r) {
        assert !Free(m, r, now);
      }
    }
  }

  lemma {:induction false} RunHonours(ops: seq<LockOp>, now: real)
    requires Timed(ops, now) && NoForcedRelease(ops)
    ensures Honoured(After(ops), ClaimsAfter(ops), now)
  {
    if ops != [] {
      var before, op := ops[..|ops| - 1], ops[|ops| - 1];
      RunHonours(before, op.now);
      StepHonours(After(before), ClaimsAfter(before), op);
      HonouredLater(After(ops), ClaimsAfter(ops), op.now, now);
    }
  }

  /** At no moment of any timed history do two owners both count on the same lock. */
  lemma HoldsNeverOverlap(ops: seq<LockOp>, now: real, r: Resource, a: Owner, b: Owner)
    requires Timed(ops, now) && NoForcedRelease(ops)
    requires Holds(ClaimsAfter(ops), a, r, now) && Holds(ClaimsAfter(ops), b, r, now)
    ensures a == b
  {
    RunHonours(ops, now);
  }

  /** The operation answers that the lock was granted or extended. */
  ghost predicate Succeeds(m: Locks, op: LockOp) {
    match Observe(m, op)
    case Granted(info) => info.Some?
    case Answer(b) => b
    case Count(_) => false
  }

  /** `get_lock_info` names the owner. */
  ghost predicate HeldBy(m: Locks, owner: Owner, r: Resource, now: real) {
    var info := Observe(m, GetLockInfo(r, now)).info;
    info.Some? && info.value.owner == owner
  }

  /**
   * In every timed history the answers are those the claims give: an acquisition succeeds exactly when no other owner
   * has an unexpired claim, an extension exactly when the owner has one, and a resource is locked while anybody has. A
   * release by who has a claim, or by force while anybody has, succeeds and leaves the resource free.
   */
  lemma AnswersFollowClaims(ops: seq<LockOp>, op: LockOp)
    requires Timed(ops, op.now) && NoForcedRelease(ops)
    ensures var m, claims, now := After(ops), ClaimsAfter(ops), op.now;
            match op
            case Acquire(r, owner, _, _) => Succeeds(m, op) <==> !HeldByOther(claims, owner, r, now)
            case Extend(r, owner, _, _) => Succeeds(m, op) <==> Holds(claims, owner, r, now)
            case IsLocked(r, _) => Succeeds(m, op) <==> HeldByAnyone(claims, r, now)
            case GetLockInfo(r, _) => forall owner :: HeldBy(m, owner, r, now) <==> Holds(claims, owner, r, now)
            case Release(r, who, _) =>
              && ((if who.Some? then Holds(claims, who.value, r, now) else HeldByAnyone(claims, r, now)) ==>
                    Succeeds(m, op))
              && (if Succeeds(m, op) then Free(Step(m, op), r, now) else Step(m, op) == m)
            case LockCount(_) => Observe(m, op) == Count(|set r | r in m && HeldByAnyone(claims, r, now)|)
            case CleanupExpired(_) => forall r :: r in Step(m, op) <==> r in m && HeldByAnyone(claims, r, now)
  {
    var m, claims, now := After(ops), ClaimsAfter(ops), op.now;
    RunHonours(ops, now);
    match op
    case Acquire(r, owner, _, _) => HolderAgrees(m, claims, owner, r, now);
    case Extend(r, owner, _, _) => HolderAgrees(m, claims, owner, r, now);
    case IsLocked(r, _) =>
      AnyoneAgrees(m, claims, r, now);
    case GetLockInfo(r, _) =>
      forall owner ensures HeldBy(m, owner, r, now) <==> Holds(claims, owner, r, now) {
        HolderAgrees(m, claims, owner, r, now);
      }
    case Release(r, who, _) =>
      AnyoneAgrees(m, claims, r, now);
      if who.Some? {
        HolderAgrees(m, claims, who.value, r, now);
      }
    case LockCount(_) => CountAgrees(m, claims, now);
    case CleanupExpired(_) => CountAgrees(m, claims, now);
  }

  lemma CountAgrees(m: Locks, claims: Claims, now: real)
    requires Honoured(m, claims, now)
    ensures var held := set r | r in m && HeldByAnyone(claims, r, now);
            Unexpired(m, now).Keys == held && |Unexpired(m, now)| == |held|
  {
    forall r ensures HeldByAnyone(claims, r, now) <==> !Free(m, r, now) {
      AnyoneAgrees(m, claims, r, now);
    }
    var live := Unexpired(m, now);
    assert live.Keys == set r | r in m && HeldByAnyone(claims, r, now);
    assert |live.Keys| == |live|;
  }

  /** The operation is one of the owner on the resource. */
  ghost predicate IsBy(op: LockOp, owner: Owner, r: Resource) {
    match op
    case Acquire(x, a, _, _) => x == r && a == owner
    case Release(x, who, _) => x == r && who == Some(owner)
    case Extend(x, a, _, _) => x == r && a == owner
    case _ => false
  }

  ghost predicate NoneBy(ops: seq<LockOp>, owner: Owner, r: Resource) {
    forall i :: 0 <= i < |ops| ==> !IsBy(ops[i], owner, r)
  }

  lemma LastOp(ops: seq<LockOp>, more: seq<LockOp>)
    requires more != []
    ensures var n := |more| - 1;
            && (ops + more)[..|ops + more| - 1] == ops + more[..n] && (ops + more)[|ops + more| - 1] == more[n]
            && ClaimsAfter(ops + more) == Told(ClaimsAfter(ops + more[..n]), more[n])
  {
    assert (ops + more)[..|ops + more| - 1] == ops + more[..|more| - 1];
  }

  /** Nobody but the owner changes its claim. */
  lemma {:induction false} ClaimStays(ops: seq<LockOp>, more: seq<LockOp>, owner: Owner, r: Resource)
    requires NoneBy(more, owner, r)
    ensures var before, after, c := ClaimsAfter(ops), ClaimsAfter(ops + more), Claim(owner, r);
            (c in after <==> c in before) && (c in before ==> after[c] == before[c])
    decreases |more|
  {
    if more == [] {
      assert ops + more == ops;
    } else {
      LastOp(ops, more);
      ClaimStays(ops, more[..|more| - 1], owner, r);
    }
  }

  ghost predicate NoneAcquires(ops: seq<LockOp>, r: Resource) {
    forall i :: 0 <= i < |ops| ==> !(ops[i].Acquire? && ops[i].r == r)
  }

  /** Who does not hold a resource does not come to hold it without an acquisition. */
  lemma {:induction false} StaysOut(ops: seq<LockOp>, more: seq<LockOp>, owner: Owner, r: Resource, start: real,
                                    now: real)
    requires !Holds(ClaimsAfter(ops), owner, r, start) && start <= now && NoneAcquires(more, r)
    requires Timed(more, now) && forall i :: 0 <= i < |more| ==> start <= more[i].now
    ensures !Holds(ClaimsAfter(ops + more), owner, r, now)
    decreases |more|
  {
    if more == [] {
      assert ops + more == ops;
    } else {
      var n := |more| - 1;
      LastOp(ops, more);
      StaysOut(ops, more[..n], owner, r, start, more[n].now);
      ToldKeepsOut(ClaimsAfter(ops + more[..n]), more[n], owner, r, now);
    }
  }

  lemma ToldKeepsOut(claims: Claims, op: LockOp, owner: Owner, r: Resource, now: real)
    requires !Holds(claims, owner, r, op.now) && op.now <= now && !(op.Acquire? && op.r == r)
    ensures !Holds(Told(claims, op), owner, r, now)
  {}

  /** The claim a successful acquisition or extension leaves behind. */
  lemma ClaimMade(ops: seq<LockOp>, op: LockOp)
    requires Timed(ops, op.now) && NoForcedRelease(ops)
    requires (op.Acquire? || op.Extend?) && Succeeds(After(ops), op)
    ensures var claims, claims', c := ClaimsAfter(ops), ClaimsAfter(ops + [op]), Claim(op.owner, op.r);
            && c in claims'
            && claims'[c] == if op.ttl > 0.0 then Some(op.now + op.ttl)
                             else if op.Acquire? && Holds(claims, op.owner, op.r, op.now) then claims[c] else None
    ensures !HeldByOther(ClaimsAfter(ops + [op]), op.owner, op.r, op.now)
  {
    AnswersFollowClaims(ops, op);
    LastOp(ops, [op]);
    assert [op][..0] == [] && ops + [] == ops;
    RunHonours(ops, op.now);
    HolderAgrees(After(ops), ClaimsAfter(ops), op.owner, op.r, op.now);
    forall other | other != op.owner ensures !Holds(ClaimsAfter(ops + [op]), other, op.r, op.now) {
      assert !Holds(ClaimsAfter(ops), other, op.r, op.now);
    }
  }

  /** The times of a history and of what follows it. */
  lemma TimedParts(ops: seq<LockOp>, op: LockOp, more: seq<LockOp>, now: real)
    requires Timed(ops + [op] + more, now)
    ensures Timed(ops, op.now) && Timed(more, now) && op.now <= now
    ensures forall i :: 0 <= i < |more| ==> op.now <= more[i].now
  {
    var all := ops + [op] + more;
    assert forall i :: 0 <= i < |ops| ==> ops[i] == all[i];
    assert all[|ops|] == op;
    assert forall i :: 0 <= i < |more| ==> more[i] == all[|ops| + 1 + i];
  }

  /**
   * After a granted acquisition or a successful extension, and until the owner acts on the resource again, the owner
   * holds it exactly up to the end of its time-to-live, and without one for ever; a reentrant acquisition without one
   * leaves the end as it was. If nobody else acquires meanwhile, `is_locked` says the same.
   */
  lemma LockLastsExactly(ops: seq<LockOp>, op: LockOp, more: seq<LockOp>, now: real)
    requires (op.Acquire? || op.Extend?) && Succeeds(After(ops), op)
    requires Timed(ops + [op] + more, now) && NoForcedRelease(ops + [op] + more) && NoneBy(more, op.owner, op.r)
    ensures var m, reentrant := After(ops + [op] + more), op.Acquire? && HeldBy(After(ops), op.owner, op.r, op.now);
            && (op.ttl > 0.0 ==> (HeldBy(m, op.owner, op.r, now) <==> now <= op.now + op.ttl))
            && (op.ttl <= 0.0 && !reentrant ==> HeldBy(m, op.owner, op.r, now))
            && (op.ttl <= 0.0 && reentrant ==>
                  (HeldBy(m, op.owner, op.r, now) <==> Holds(ClaimsAfter(ops), op.owner, op.r, now)))
            && (op.ttl > 0.0 && NoneAcquires(more, op.r) ==>
                  (Succeeds(m, IsLocked(op.r, now)) <==> now <= op.now + op.ttl))
  {
    var all := ops + [op] + more;
    TimedParts(ops, op, more, now);
    assert forall i :: 0 <= i < |ops| ==> ops[i] == all[i];
    AnswersFollowClaims(ops, GetLockInfo(op.r, op.now));
    ClaimMade(ops, op);
    ClaimStays(ops + [op], more, op.owner, op.r);
    AnswersFollowClaims(all, GetLockInfo(op.r, now));
    AnswersFollowClaims(all, IsLocked(op.r, now));
    if NoneAcquires(more, op.r) {
      forall other | other != op.owner ensures !Holds(ClaimsAfter(all), other, op.r, now) {
        StaysOut(ops + [op], more, other, op.r, op.now, now);
      }
    }
  }

  // ---- lazy and eager expiry

  /** Two tables agree on everything that has not expired. */
  ghost predicate SameLive(m: Locks, k: Locks, now: real) {
    Unexpired(m, now) == Unexpired(k, now)
  }

  lemma SameLiveAt(m: Locks, k: Locks, now: real, r: Resource)
    requires SameLive(m, k, now)
    ensures Free(m, r, now) <==> Free(k, r, now)
    ensures !Free(m, r, now) ==> m[r] == k[r]
  {
    assert !Free(m, r, now) <==> r in Unexpired(m, now);
    assert !Free(k, r, now) <==> r in Unexpired(k, now);
    if !Free(m, r, now) {
      assert Unexpired(m, now)[r] == m[r] && Unexpired(k, now)[r] == k[r];
    }
  }

  lemma AllSameLive(m: Locks, k: Locks, now: real)
    requires forall r :: (Free(m, r, now) <==> Free(k, r, now)) && (!Free(m, r, now) ==> m[r] == k[r])
    ensures SameLive(m, k, now)
  {
    var a, b := Unexpired(m, now), Unexpired(k, now);
    forall r ensures r in a <==> r in b {
      assert r in a <==> !Free(m, r, now);
      assert r in b <==> !Free(k, r, now);
    }
    assert a.Keys == b.Keys;
    forall r | r in a ensures a[r] == b[r] {
      assert !Free(m, r, now);
    }
  }

  lemma SameLiveLater(m: Locks, k: Locks, now: real, later: real)
    requires SameLive(m, k, now) && now <= later
    ensures SameLive(m, k, later)
  {
    forall r ensures (Free(m, r, later) <==> Free(k, r, later)) && (!Free(m, r, later) ==> m[r] == k[r]) {
      SameLiveAt(m, k, now, r);
    }
    AllSameLive(m, k, later);
  }

  /** The operations see only what has not expired, except for `release` and what `cleanup_expired` counts. */
  lemma SameObservation(m: Locks, k: Locks, op: LockOp)
    requires SameLive(m, k, op.now)
    ensures !op.Release? && !op.CleanupExpired? ==> Observe(m, op) == Observe(k, op)
  {
    if op.CleanupExpired? || op.LockCount? {
    } else {
      SameLiveAt(m, k, op.now, op.r);
    }
  }

  lemma SameStep(m: Locks, k: Locks, op: LockOp)
    requires SameLive(m, k, op.now)
    ensures SameLive(Step(m, op), Step(k, op), op.now)
  {
    var m', k', now := Step(m, op), Step(k, op), op.now;
    forall r ensures (Free(m', r, now) <==> Free(k', r, now)) && (!Free(m', r, now) ==> m'[r] == k'[r]) {
      SameLiveAt(m, k, now, r);
      if !op.CleanupExpired? && !op.LockCount? {
        SameLiveAt(m, k, now, op.r);
      }
    }
    AllSameLive(m', k', now);
  }

  /** Some expired locks are removed early. */
  ghost function Swept(m: Locks, gone: set<Resource>, now: real): Locks {
    map r | r in m && !(r in gone && Expired(m[r].expiresAt, now)) :: m[r]
  }

  /** The same history, but before each operation a sweep removes some of the locks expired by then. */
  ghost function AfterSwept(ops: seq<LockOp>, sweeps: seq<set<Resource>>): Locks
    requires |sweeps| == |ops|
  {
    if ops == [] then map[]
    else
      var n := |ops| - 1;
      Step(Swept(AfterSwept(ops[..n], sweeps[..n]), sweeps[n], ops[n].now), ops[n])
  }

  lemma SweptIsSameLive(m: Locks, k: Locks, gone: set<Resource>, now: real)
    requires SameLive(m, k, now)
    ensures SameLive(m, Swept(k, gone, now), now)
  {
    forall r ensures (Free(m, r, now) <==> Free(Swept(k, gone, now), r, now))
                     && (!Free(m, r, now) ==> m[r] == Swept(k, gone, now)[r])
    {
      SameLiveAt(m, k, now, r);
    }
    AllSameLive(m, Swept(k, gone, now), now);
  }

  lemma {:induction false} SweptRunIsSameLive(ops: seq<LockOp>, sweeps: seq<set<Resource>>, now: real)
    requires Timed(ops, now) && |sweeps| == |ops|
    ensures SameLive(After(ops), AfterSwept(ops, sweeps), now)
  {
    if ops != [] {
      var n := |ops| - 1;
      var m, k := After(ops[..n]), AfterSwept(ops[..n], sweeps[..n]);
      SweptRunIsSameLive(ops[..n], sweeps[..n], ops[n].now);
      SweptIsSameLive(m, k, sweeps[n], ops[n].now);
      SameStep(m, Swept(k, sweeps[n], ops[n].now), ops[n]);
      SameLiveLater(After(ops), AfterSwept(ops, sweeps), ops[n].now, now);
    }
  }

  /**
   * Removing expired locks early, whichever and whenever, changes no later answer of `acquire`, `extend`, `is_locked`,
   * `get_lock_info` or `lock_count`.
   */
  lemma EarlyExpiryIsInvisible(ops: seq<LockOp>, sweeps: seq<set<Resource>>, gone: set<Resource>, op: LockOp)
    requires Timed(ops, op.now) && |sweeps| == |ops|
    requires !op.Release? && !op.CleanupExpired?
    ensures Observe(After(ops), op) == Observe(Swept(AfterSwept(ops, sweeps), gone, op.now), op)
  {
    SweptRunIsSameLive(ops, sweeps, op.now);
    SweptIsSameLive(After(ops), AfterSwept(ops, sweeps), gone, op.now);
    SameObservation(After(ops), Swept(AfterSwept(ops, sweeps), gone, op.now), op);
  }

  /** `release` does tell: it reports success for an expired lock exactly while nobody has removed it. */
  lemma ReleaseTellsSweepIff(m: Locks, gone: set<Resource>, r: Resource, who: Option<Owner>, now: real)
    ensures Observe(m, Release(r, who, now)) != Observe(Swept(m, gone, now), Release(r, who, now)) <==>
            r in gone && Releases(m, r, who) && Expired(m[r].expiresAt, now)
  {}

  /** What `cleanup_expired` removes and what `lock_count` counts make up the table. */
  lemma CleanupCounts(m: Locks, now: real)
    ensures |m.Keys - Unexpired(m, now).Keys| + |Unexpired(m, now)| == |m|
    ensures Unexpired(Unexpired(m, now), now) == Unexpired(m, now)
  {
    var live := Unexpired(m, now);
    assert m.Keys == (m.Keys - live.Keys) + live.Keys;
    assert |m.Keys| == |m| && |live.Keys| == |live|;
  }

  lemma DropExpired(m: Locks, expired: set<Resource>, now: real)
    requires expired == m.Keys - Unexpired(m, now).Keys
    ensures m - expired == Step(m, CleanupExpired(now))
  {
    assert (m - expired).Keys == Unexpired(m, now).Keys;
  }

  // ---- the manager

  class LockInfo {
    const resource: Resource
    const owner: Owner
    var expiresAt: Option<real>

    constructor (resource: Resource, owner: Owner, expiresAt: Option<real>)
      ensures this.resource == resource && this.owner == owner && this.expiresAt == expiresAt
    {
      this.resource, this.owner, this.expiresAt := resource, owner, expiresAt;
    }
  }

  class InMemoryLockManager {
    var locks: map<Resource, LockInfo>

    /** Each resource has its own record. */
    ghost predicate Valid()
      reads this, locks.Values
    {
      forall r :: r in locks ==> locks[r].resource == r
    }

    ghost function Table(): Locks
      reads this, locks.Values
    {
      map r | r in locks :: Lock(locks[r].owner, locks[r].expiresAt)
    }

    constructor ()
      ensures Valid() && Table() == map[]
    {
      locks := map[];
    }

    /** One non-blocking try; `ttl` is the time-to-live after the default was applied. */
    method Acquire(r: Resource, owner: Owner, ttl: real, now: real) returns (info: LockInfo?)
      requires Valid()
      modifies this, locks.Values
      ensures Valid() && Table() == Step(old(Table()), LockOp.Acquire(r, owner, ttl, now))
      ensures info == null <==> AcquiredLock(old(Table()), r, owner, ttl, now) == None
      ensures info != null ==> r in locks && info == locks[r]
      ensures forall other :: other in old(locks) && other != r ==> other in locks && locks[other] == old(locks)[other]
    {
      if r !in locks || Expired(locks[r].expiresAt, now) {
        info := new LockInfo(r, owner, ExpiryAfter(now, ttl));
        locks := locks[r := info];
        return;
      }
      var existing := locks[r];
      if existing.owner == owner {
        if ttl > 0.0 {
          existing.expiresAt := Some(now + ttl);
        }
        return existing;
      }
      return null;
    }

    method Release(r: Resource, who: Option<Owner>, now: real) returns (released: bool)
      requires Valid()
      modifies this
      ensures Valid() && Table() == Step(old(Table()), LockOp.Release(r, who, now))
      ensures Answer(released) == Observe(old(Table()), LockOp.Release(r, who, now))
    {
      if r !in locks {
        return false;
      }
      if who.Some? && locks[r].owner != who.value {
        return false;
      }
      locks := locks - {r};
      return true;
    }

    method Extend(r: Resource, owner: Owner, ttl: real, now: real) returns (extended: bool)
      requires Valid()
      modifies this, locks.Values
      ensures Valid() && Table() == Step(old(Table()), LockOp.Extend(r, owner, ttl, now))
      ensures Answer(extended) == Observe(old(Table()), LockOp.Extend(r, owner, ttl, now))
    {
      if r !in locks {
        return false;
      }
      var existing := locks[r];
      if existing.owner != owner {
        return false;
      }
      if Expired(existing.expiresAt, now) {
        locks := locks - {r};
        return false;
      }
      existing.expiresAt := ExpiryAfter(now, ttl);
      return true;
    }

    method IsLocked(r: Resource, now: real) returns (locked: bool)
      requires Valid()
      modifies this
      ensures Valid() && Table() == Step(old(Table()), LockOp.IsLocked(r, now))
      ensures Answer(locked) == Observe(old(Table()), LockOp.IsLocked(r, now))
    {
      var info := GetLockInfo(r, now);
      locked := info != null;
    }

    method GetLockInfo(r: Resource, now: real) returns (info: LockInfo?)
      requires Valid()
      modifies this
      ensures Valid() && Table() == Step(old(Table()), LockOp.GetLockInfo(r, now))
      ensures info == null <==> Free(old(Table()), r, now)
      ensures info != null ==> r in locks && info == locks[r]
    {
      if r !in locks {
        return null;
      }
      if Expired(locks[r].expiresAt, now) {
        locks := locks - {r};
        return null;
      }
      return locks[r];
    }

    /** The listing `cleanup_expired` starts with. */
    method ExpiredResources(now: real) returns (expired: set<Resource>)
      requires Valid()
      ensures expired == Table().Keys - Unexpired(Table(), now).Keys
    {
      expired := {};
      var rest := locks.Keys;
      while rest != {}
        invariant rest <= locks.Keys
        invariant forall r :: r in expired <==> r in locks && r !in rest && Expired(locks[r].expiresAt, now)
        decreases rest
      {
        var r :| r in rest;
        if Expired(locks[r].expiresAt, now) {
          expired := expired + {r};
        }
        rest := rest - {r};
      }
    }

    method Drop(gone: set<Resource>)
      requires Valid()
      modifies this`locks
      ensures Valid() && Table() == old(Table()) - gone
    {
      locks := locks - gone;
    }

    method CleanupExpired(now: real) returns (removed: nat)
      requires Valid()
      modifies this`locks
      ensures Valid() && Table() == Step(old(Table()), LockOp.CleanupExpired(now))
      ensures Count(removed) == Observe(old(Table()), LockOp.CleanupExpired(now))
    {
      var expired := ExpiredResources(now);
      removed := |expired|;
      ghost var m := Table();
      DropExpired(m, expired, now);
      Drop(expired);
    }

    method LockCount(now: real) returns (n: nat)
      requires Valid()
      ensures Count(n) == Observe(Table(), LockOp.LockCount(now))
    {
      n := 0;
      var rest := locks.Keys;
      ghost var counted := {};
      while rest != {}
        invariant rest <= locks.Keys && n == |counted|
        invariant forall r :: r in counted <==> r in locks && r !in rest && !Expired(locks[r].expiresAt, now)
        decreases rest
      {
        var r :| r in rest;
        if !Expired(locks[r].expiresAt, now) {
          counted, n := counted + {r}, n + 1;
        }
        rest := rest - {r};
      }
      var live := Unexpired(Table(), now);
      assert counted == live.Keys;
      assert |live.Keys| == |live|;
    }
  }
}
