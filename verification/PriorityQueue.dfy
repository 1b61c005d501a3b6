/** The thread-safe priority queue of `queue/priority_queue.py`: a heap with lazy deletion and an index by job. */
module PriorityQueues {
  import opened Collections
  import opened Wrappers
  import opened BinaryHeaps

  /** The queue as a value: the heap's entries in ascending order, the index, the removed ids and the counter. */
  datatype QueueState = QueueState(
    items: seq<QueueEntry>,
    entries: map<JobId, QueueEntry>,
    removed: set<JobId>,
    counter: nat)

  datatype Popped = Popped(ready: Option<QueueEntry>, rest: QueueState)

  // ---- ascending lists of entries

  ghost predicate Ascending(items: seq<QueueEntry>) {
    forall i, j :: 0 <= i < j < |items| ==> Less(items[i], items[j])
  }

  function Inserted(items: seq<QueueEntry>, e: QueueEntry): (r: seq<QueueEntry>)
    ensures multiset(r) == multiset(items) + multiset{e} && |r| == |items| + 1
  {
    if items == [] || Less(e, items[0]) then [e] + items
    else
      assert items == [items[0]] + items[1..];
      [items[0]] + Inserted(items[1..], e)
  }

  lemma ElementOfMultiset(s: seq<QueueEntry>, t: seq<QueueEntry>, x: QueueEntry)
    requires multiset(s) == multiset(t) && x in s
    ensures x in t
  {
    assert x in multiset(s);
  }

  lemma InsertedElements(items: seq<QueueEntry>, e: QueueEntry)
    ensures forall x :: x in Inserted(items, e) <==> x in items || x == e
  {
    forall x ensures x in Inserted(items, e) <==> x in items || x == e {
      assert x in multiset(Inserted(items, e)) <==> x in multiset(items) + multiset{e};
    }
  }

  lemma HeadFirst(head: QueueEntry, rest: seq<QueueEntry>)
    requires Ascending(rest) && forall x :: x in rest ==> Less(head, x)
    ensures Ascending([head] + rest)
  {
    assert forall i :: 0 <= i < |rest| ==> rest[i] in rest;
  }

  lemma {:induction false} InsertedAscends(items: seq<QueueEntry>, e: QueueEntry)
    requires Ascending(items)
    requires forall x :: x in items ==> x.insertionOrder != e.insertionOrder
    ensures Ascending(Inserted(items, e))
    ensures forall x :: x in Inserted(items, e) <==> x in items || x == e
  {
    InsertedElements(items, e);
    if items == [] || Less(e, items[0]) {
    } else {
      InsertedElements(items[1..], e);
      InsertedAscends(items[1..], e);
      HeadFirst(items[0], Inserted(items[1..], e));
    }
  }

  lemma BothEmptyOrNeither(a: seq<QueueEntry>, b: seq<QueueEntry>)
    requires forall x :: x in a <==> x in b
    ensures a == [] <==> b == []
  {
    if a != [] {
      assert a[0] in b;
    }
    if b != [] {
      assert b[0] in a;
    }
  }

  /** An ascending list is determined by its elements. */
  lemma {:induction false} AscendingIsUnique(a: seq<QueueEntry>, b: seq<QueueEntry>)
    requires Ascending(a) && Ascending(b)
    requires forall x :: x in a <==> x in b
    ensures a == b
  {
    BothEmptyOrNeither(a, b);
    if a == [] {
    } else {
      assert a[0] in a && a[0] in b && b[0] in b && b[0] in a;
      assert a[0] == b[0];
      forall x ensures x in a[1..] <==> x in b[1..] {
        TailOf(a, x);
        TailOf(b, x);
      }
      AscendingIsUnique(a[1..], b[1..]);
      assert a == [a[0]] + a[1..] && b == [b[0]] + b[1..];
    }
  }

  lemma TailOf(a: seq<QueueEntry>, x: QueueEntry)
    requires Ascending(a) && a != []
    ensures x in a[1..] <==> x in a && x != a[0]
  {
    if x in a && x != a[0] {
      var i :| 0 <= i < |a| && a[i] == x;
      assert a[1..][i - 1] == x;
    }
  }

  // ---- the operations, on values

  ghost predicate Live(s: QueueState, id: JobId) {
    id in s.entries && id !in s.removed
  }

  /** `push`, and the second half of `update_priority` and `reschedule`. */
  ghost function Pushed(s: QueueState, id: JobId, priority: int, time: real): QueueState {
    var e := QueueEntry(priority, time, s.counter, id);
    QueueState(Inserted(s.items, e), s.entries[id := e], s.removed - {id}, s.counter + 1)
  }

  ghost function Discarded(s: QueueState): QueueState
    requires s.items != []
  {
    var id := s.items[0].jobId;
    s.(items := s.items[1..], entries := s.entries - {id}, removed := s.removed - {id})
  }

  /** `_cleanup_removed`. */
  ghost function Cleaned(s: QueueState): QueueState
    decreases |s.items|
  {
    if s.items == [] || s.items[0].jobId !in s.removed then s else Cleaned(Discarded(s))
  }

  /** `_get_ready_job`: entries of removed ids are dropped on the way, entries not yet due are kept. */
  ghost function Scan(s: QueueState, now: real): Popped
    decreases |s.items|
  {
    if s.items == [] then Popped(None, s)
    else if s.items[0].jobId in s.removed then Scan(Discarded(s), now)
    else if s.items[0].scheduledTime <= now then
      Popped(Some(s.items[0]), s.(items := s.items[1..], entries := s.entries - {s.items[0].jobId}))
    else
      var p := Scan(s.(items := s.items[1..]), now);
      p.(rest := p.rest.(items := [s.items[0]] + p.rest.items))
  }

  ghost function Removed(s: QueueState, id: JobId): QueueState {
    if Live(s, id) then s.(removed := s.removed + {id}) else s
  }

  /** `__iter__`: the indexed, not removed entries in ascending order. */
  ghost function Listing(items: seq<QueueEntry>, entries: map<JobId, QueueEntry>,
        removed: set<JobId>): seq<QueueEntry> {
    if items == [] then []
    else
      var e := items[0];
      (if e.jobId in entries && entries[e.jobId] == e && e.jobId !in removed then [e] else [])
      + Listing(items[1..], entries, removed)
  }

  ghost function Iteration(s: QueueState): seq<QueueEntry> {
    Listing(s.items, s.entries, s.removed)
  }

  /** What repeated non-blocking pops at one moment hand out. */
  ghost function Drain(s: QueueState, now: real): seq<QueueEntry>
    decreases |s.items|
  {
    ScanShrinks(s, now);
    var p := Scan(s, now);
    if p.ready.None? then [] else [p.ready.value] + Drain(p.rest, now)
  }

  lemma {:induction false} ScanShrinks(s: QueueState, now: real)
    ensures |Scan(s, now).rest.items| <= |s.items|
    ensures Scan(s, now).ready.Some? ==> |Scan(s, now).rest.items| < |s.items|
    decreases |s.items|
  {
    if s.items == [] {
    } else if s.items[0].jobId in s.removed {
      ScanShrinks(Discarded(s), now);
    } else if s.items[0].scheduledTime > now {
      ScanShrinks(s.(items := s.items[1..]), now);
    }
  }

  // ---- what holds over every operation sequence

  /** Insertion numbers are unique and below the counter. */
  ghost predicate UniqueOrders(items: seq<QueueEntry>, counter: nat) {
    && (forall i :: 0 <= i < |items| ==> items[i].insertionOrder < counter)
    && (forall i, j :: 0 <= i < j < |items| ==> items[i].insertionOrder != items[j].insertionOrder)
  }

  ghost predicate Inv(s: QueueState) {
    && Ascending(s.items)
    && UniqueOrders(s.items, s.counter)
    && s.removed <= s.entries.Keys
    && (forall id :: id in s.entries ==> s.entries[id].jobId == id && s.entries[id] in s.items)
  }

  datatype QueueOp =
    | Push(id: JobId, priority: int, time: real)
    | PopReady(now: real)
    | Cleanup
    | Remove(id: JobId)
    | Replace(id: JobId, priority: int, time: real)
    | Clear

  /** Replace stands for `update_priority` and `reschedule`: both insert a new entry for a live job. */
  ghost function Apply(maxSize: Option<nat>, s: QueueState, op: QueueOp): QueueState {
    match op
    case Push(id, priority, time) => if Full(maxSize, s) then s else Pushed(s, id, priority, time)
    case PopReady(now) => Scan(Cleaned(s), now).rest
    case Cleanup => Cleaned(s)
    case Remove(id) => Removed(s, id)
    case Replace(id, priority, time) => if Live(s, id) then Pushed(s, id, priority, time) else s
    case Clear => Empty()
  }

  ghost function Empty(): QueueState {
    QueueState([], map[], {}, 0)
  }

  ghost function Length(s: QueueState): int {
    |s.entries| - |s.removed|
  }

  /** A maximum of zero means no maximum. */
  function Resolved(max: Option<nat>): Option<nat> {
    if max == Some(0) then None else max
  }

  ghost predicate Full(maxSize: Option<nat>, s: QueueState) {
    maxSize.Some? && Length(s) >= maxSize.value
  }

  ghost function AfterOps(maxSize: Option<nat>, ops: seq<QueueOp>): QueueState {
    if ops == [] then Empty() else Apply(maxSize, AfterOps(maxSize, ops[..|ops| - 1]), ops[|ops| - 1])
  }

  lemma PushedKeepsInv(s: QueueState, id: JobId, priority: int, time: real)
    requires Inv(s)
    ensures Inv(Pushed(s, id, priority, time))
  {
    var e := QueueEntry(priority, time, s.counter, id);
    InsertedAscends(s.items, e);
    InsertedOrders(s.items, e, s.counter);
  }

  lemma {:induction false} InsertedOrders(items: seq<QueueEntry>, e: QueueEntry, counter: nat)
    requires e.insertionOrder == counter && UniqueOrders(items, counter)
    ensures UniqueOrders(Inserted(items, e), counter + 1)
  {
    var r := Inserted(items, e);
    if items != [] && !Less(e, items[0]) {
      InsertedOrders(items[1..], e, counter);
      forall j | 0 < j < |r| ensures r[j].insertionOrder != r[0].insertionOrder {
        assert r[j] in multiset(Inserted(items[1..], e));
        assert r[j] in items[1..] || r[j] == e;
      }
    }
  }

  lemma Discarding(front: seq<QueueEntry>, s: QueueState)
    requires s.items != [] && Inv(s.(items := front + s.items))
    ensures Inv(Discarded(s).(items := front + s.items[1..]))
  {
    var before, after := front + s.items, front + s.items[1..];
    assert forall i :: 0 <= i < |after| ==> after[i] == before[if i < |front| then i else i + 1];
    forall id | id in Discarded(s).entries ensures s.entries[id] in after {
      var k :| 0 <= k < |before| && before[k] == s.entries[id];
      assert k != |front|;
      assert after[if k < |front| then k else k - 1] == s.entries[id];
    }
  }

  lemma DiscardedKeepsInv(s: QueueState)
    requires s.items != [] && Inv(s)
    ensures Inv(Discarded(s))
  {
    assert [] + s.items == s.items && [] + s.items[1..] == s.items[1..];
    assert s == s.(items := [] + s.items);
    Discarding([], s);
    assert Discarded(s) == Discarded(s).(items := [] + s.items[1..]);
  }

  lemma {:induction false} CleanedKeepsInv(s: QueueState)
    requires Inv(s)
    ensures Inv(Cleaned(s))
    decreases |s.items|
  {
    if s.items != [] && s.items[0].jobId in s.removed {
      DiscardedKeepsInv(s);
      CleanedKeepsInv(Discarded(s));
    }
  }

  /** The scan keeps the invariant; `front` holds the entries already passed over. */
  lemma {:induction false} ScanKeepsInv(front: seq<QueueEntry>, s: QueueState, now: real)
    requires Inv(s.(items := front + s.items))
    ensures var t := Scan(s, now).rest; Inv(t.(items := front + t.items))
    decreases |s.items|
  {
    if s.items == [] {
    } else if s.items[0].jobId in s.removed {
      Discarding(front, s);
      ScanKeepsInv(front, Discarded(s), now);
    } else if s.items[0].scheduledTime <= now {
      Discarding(front, s);
      assert s.removed - {s.items[0].jobId} == s.removed;
    } else {
      var tail := s.(items := s.items[1..]);
      assert front + [s.items[0]] + s.items[1..] == front + s.items;
      ScanKeepsInv(front + [s.items[0]], tail, now);
      var t := Scan(tail, now).rest;
      assert front + [s.items[0]] + t.items == front + ([s.items[0]] + t.items);
    }
  }

  /** `pop` cleans up before it scans, which the scan would have done by itself. */
  lemma {:induction false} ScanAbsorbsCleanup(s: QueueState, now: real)
    ensures Scan(Cleaned(s), now) == Scan(s, now)
    decreases |s.items|
  {
    if s.items != [] && s.items[0].jobId in s.removed {
      ScanAbsorbsCleanup(Discarded(s), now);
    }
  }

  lemma ApplyKeepsInv(maxSize: Option<nat>, s: QueueState, op: QueueOp)
    requires Inv(s)
    ensures Inv(Apply(maxSize, s, op))
  {
    match op
    case Push(id, priority, time) => PushedKeepsInv(s, id, priority, time);
    case PopReady(now) =>
      CleanedKeepsInv(s);
      ScanKeepsWhole(Cleaned(s), now);
    case Cleanup => CleanedKeepsInv(s);
    case Remove(id) =>
    case Replace(id, priority, time) => PushedKeepsInv(s, id, priority, time);
    case Clear =>
  }

  /** After any operation sequence, re-pushes and replacements included, the structure is sound. */
  lemma {:induction false} OpsKeepInv(maxSize: Option<nat>, ops: seq<QueueOp>)
    ensures Inv(AfterOps(maxSize, ops))
  {
    if ops != [] {
      OpsKeepInv(maxSize, ops[..|ops| - 1]);
      ApplyKeepsInv(maxSize, AfterOps(maxSize, ops[..|ops| - 1]), ops[|ops| - 1]);
    }
  }

  // ---- length and statistics

  ghost function LiveIds(s: QueueState): set<JobId> {
    set id | id in s.entries && id !in s.removed
  }

  ghost function DueAmong(s: QueueState, now: real, ids: set<JobId>): set<JobId> {
    set id | id in ids && Live(s, id) && s.entries[id].scheduledTime <= now
  }

  ghost function LaterAmong(s: QueueState, now: real, ids: set<JobId>): set<JobId> {
    set id | id in ids && Live(s, id) && s.entries[id].scheduledTime > now
  }

  ghost function ReadyIds(s: QueueState, now: real): set<JobId> {
    DueAmong(s, now, s.entries.Keys)
  }

  ghost function ScheduledIds(s: QueueState, now: real): set<JobId> {
    LaterAmong(s, now, s.entries.Keys)
  }

  lemma LiveSplits(s: QueueState, now: real)
    ensures |LiveIds(s)| == |ReadyIds(s, now)| + |ScheduledIds(s, now)|
  {
    assert LiveIds(s) == ReadyIds(s, now) + ScheduledIds(s, now);
    assert ReadyIds(s, now) * ScheduledIds(s, now) == {};
  }

  /** The length is the number of ids `contains` accepts, and splits into the ready and the scheduled ones. */
  lemma LengthCounts(s: QueueState, now: real)
    requires Inv(s)
    ensures Length(s) == |LiveIds(s)| == |ReadyIds(s, now)| + |ScheduledIds(s, now)|
  {
    LiveSplits(s, now);
    assert LiveIds(s) == s.entries.Keys - s.removed;
    assert s.entries.Keys == LiveIds(s) + s.removed;
  }

  // ---- refinement: while ids are pushed only when not indexed, the queue is a sorted set

  /** Every entry in the heap is the indexed one of its job. */
  ghost predicate Clean(s: QueueState) {
    forall e :: e in s.items ==> e.jobId in s.entries && s.entries[e.jobId] == e
  }

  lemma {:induction false} ListingIgnores(items: seq<QueueEntry>, entries: map<JobId, QueueEntry>,
        removed: set<JobId>, id: JobId)
    requires forall e :: e in items ==> e.jobId != id
    ensures Listing(items, entries - {id}, removed - {id}) == Listing(items, entries, removed)
    ensures Listing(items, entries - {id}, removed) == Listing(items, entries, removed)
  {
    if items != [] {
      assert items[0] in items;
      ListingIgnores(items[1..], entries, removed, id);
    }
  }

  lemma HeadIdOnce(s: QueueState)
    requires Ascending(s.items) && Clean(s) && s.items != []
    ensures forall e :: e in s.items[1..] ==> e.jobId != s.items[0].jobId
  {
    forall e | e in s.items[1..] ensures e.jobId != s.items[0].jobId {
      TailOf(s.items, e);
      assert s.items[0] in s.items && e in s.items;
    }
  }

  /** The position of the first due entry, or the length. */
  ghost function FirstDue(list: seq<QueueEntry>, now: real): (k: nat)
    ensures k <= |list| && (k < |list| ==> list[k].scheduledTime <= now)
    ensures forall i :: 0 <= i < k ==> list[i].scheduledTime > now
  {
    if list == [] || list[0].scheduledTime <= now then 0 else 1 + FirstDue(list[1..], now)
  }

  /** The first due entry of the listing is handed out, if there is one, and exactly the rest is left. */
  ghost predicate TakesFirstDue(list: seq<QueueEntry>, now: real, p: Popped) {
    var k := FirstDue(list, now);
    && p.ready == (if k < |list| then Some(list[k]) else None)
    && Iteration(p.rest) == (if k < |list| then list[..k] + list[k + 1..] else list)
  }

  lemma {:induction false} ScanSpares(s: QueueState, now: real, id: JobId)
    requires forall e :: e in s.items ==> e.jobId != id
    ensures var t := Scan(s, now).rest;
            && (id in t.entries <==> id in s.entries)
            && (id in s.entries ==> t.entries[id] == s.entries[id])
            && (id in t.removed <==> id in s.removed)
    decreases |s.items|
  {
    if s.items == [] {
    } else if s.items[0].jobId in s.removed {
      ScanSpares(Discarded(s), now, id);
    } else if s.items[0].scheduledTime > now {
      ScanSpares(s.(items := s.items[1..]), now, id);
    }
  }

  lemma KeepHead(e: QueueEntry, list: seq<QueueEntry>, now: real, p: Popped)
    requires TakesFirstDue(list, now, p) && e.scheduledTime > now
    requires e.jobId in p.rest.entries && p.rest.entries[e.jobId] == e && e.jobId !in p.rest.removed
    ensures TakesFirstDue([e] + list, now, p.(rest := p.rest.(items := [e] + p.rest.items)))
  {
    var k, whole := FirstDue(list, now), [e] + list;
    assert whole[1..] == list;
    assert FirstDue(whole, now) == k + 1;
    var items := [e] + p.rest.items;
    assert items[1..] == p.rest.items;
    assert Listing(items, p.rest.entries, p.rest.removed) == [e] + Iteration(p.rest);
    if k < |list| {
      assert whole[..k + 1] + whole[k + 2..] == [e] + (list[..k] + list[k + 1..]);
    }
  }

  /** `_get_ready_job` on a clean queue takes the least due live entry and leaves all the others. */
  lemma {:induction false} ScanTakesFirstDue(s: QueueState, now: real)
    requires Ascending(s.items) && Clean(s)
    ensures TakesFirstDue(Iteration(s), now, Scan(s, now))
    decreases |s.items|
  {
    if s.items != [] {
      var e, tail := s.items[0], s.(items := s.items[1..]);
      assert e in s.items;
      HeadIdOnce(s);
      ListingIgnores(tail.items, s.entries, s.removed, e.jobId);
      if e.jobId in s.removed {
        assert Iteration(Discarded(s)) == Iteration(s);
        ScanTakesFirstDue(Discarded(s), now);
      } else if e.scheduledTime > now {
        ScanTakesFirstDue(tail, now);
        ScanSpares(tail, now, e.jobId);
        KeepHead(e, Iteration(tail), now, Scan(tail, now));
      } else {
        var list := Iteration(s);
        assert list == [e] + Iteration(tail);
        assert list[..0] + list[1..] == Iteration(tail);
      }
    }
  }

  lemma {:induction false} ScanKeepsClean(s: QueueState, now: real)
    requires Ascending(s.items) && Clean(s)
    ensures Clean(Scan(s, now).rest)
    decreases |s.items|
  {
    if s.items != [] {
      var e, tail := s.items[0], s.(items := s.items[1..]);
      assert e in s.items;
      HeadIdOnce(s);
      if e.jobId in s.removed {
        ScanKeepsClean(Discarded(s), now);
      } else if e.scheduledTime > now {
        ScanKeepsClean(tail, now);
        ScanSpares(tail, now, e.jobId);
      }
    }
  }

  lemma {:induction false} ListingElements(items: seq<QueueEntry>, entries: map<JobId, QueueEntry>, removed: set<JobId>)
    requires Ascending(items)
    ensures Ascending(Listing(items, entries, removed))
    ensures forall e :: e in Listing(items, entries, removed) <==>
              e in items && e.jobId in entries && entries[e.jobId] == e && e.jobId !in removed
  {
    if items != [] {
      var rest := Listing(items[1..], entries, removed);
      ListingElements(items[1..], entries, removed);
      forall e ensures e in items[1..] <==> e in items && e != items[0] {
        TailOf(items, e);
      }
      forall i | 0 <= i < |rest| ensures Less(items[0], rest[i]) {
        assert rest[i] in rest;
        assert rest[i] in items[1..];
      }
    }
  }

  /** The iteration lists the entry of every live job, and nothing else, in ascending order. */
  lemma IterationIsSortedIndex(s: QueueState)
    requires Inv(s)
    ensures Ascending(Iteration(s))
    ensures forall e :: e in Iteration(s) <==> Live(s, e.jobId) && s.entries[e.jobId] == e
  {
    ListingElements(s.items, s.entries, s.removed);
  }

  /** Pushing keeps the queue clean exactly when the job is not indexed yet, not even as removed. */
  lemma PushKeepsCleanIffUnindexed(s: QueueState, id: JobId, priority: int, time: real)
    requires Inv(s) && Clean(s)
    ensures Clean(Pushed(s, id, priority, time)) <==> id !in s.entries
  {
    var e := QueueEntry(priority, time, s.counter, id);
    var t := Pushed(s, id, priority, time);
    InsertedAscends(s.items, e);
    if id in s.entries {
      assert s.entries[id] in t.items;
    }
  }

  /** Pushing an unindexed job inserts one entry into the sorted listing, behind its equals. */
  lemma PushInserts(s: QueueState, id: JobId, priority: int, time: real)
    requires Inv(s) && Clean(s) && id !in s.entries
    ensures Iteration(Pushed(s, id, priority, time)) ==
            Inserted(Iteration(s), QueueEntry(priority, time, s.counter, id))
  {
    var e := QueueEntry(priority, time, s.counter, id);
    var t := Pushed(s, id, priority, time);
    InsertedAscends(s.items, e);
    IterationIsSortedIndex(s);
    PushedKeepsInv(s, id, priority, time);
    IterationIsSortedIndex(t);
    var list, list' := Iteration(s), Iteration(t);
    InsertedAscends(list, e);
    forall x ensures x in list' <==> x in list || x == e {
      assert x in list <==> Live(s, x.jobId) && s.entries[x.jobId] == x;
      assert x in list' <==> Live(t, x.jobId) && t.entries[x.jobId] == x;
    }
    AscendingIsUnique(list', Inserted(list, e));
  }

  /** Removing a job takes its entry out of the listing and leaves the others. */
  lemma RemoveTakesOut(s: QueueState, id: JobId)
    requires Inv(s)
    ensures forall e :: e in Iteration(Removed(s, id)) <==> e in Iteration(s) && e.jobId != id
    ensures Clean(s) ==> Clean(Removed(s, id))
  {
    IterationIsSortedIndex(s);
    IterationIsSortedIndex(Removed(s, id));
  }

  /** Cleaning up does not show in the listing. See `CleanupForgets` for what it achieves. */
  lemma {:induction false} CleanupIsInvisible(s: QueueState)
    requires Ascending(s.items) && Clean(s)
    ensures Iteration(Cleaned(s)) == Iteration(s) && Clean(Cleaned(s))
    decreases |s.items|
  {
    if s.items != [] && s.items[0].jobId in s.removed {
      var e := s.items[0];
      assert e in s.items;
      HeadIdOnce(s);
      ListingIgnores(s.items[1..], s.entries, s.removed, e.jobId);
      CleanupIsInvisible(Discarded(s));
    }
  }

  ghost predicate Disciplined(maxSize: Option<nat>, ops: seq<QueueOp>) {
    ops == [] || (
      var s, op := AfterOps(maxSize, ops[..|ops| - 1]), ops[|ops| - 1];
      && Disciplined(maxSize, ops[..|ops| - 1])
      && !op.Replace?
      && (op.Push? ==> op.id !in s.entries))
  }

  /** As long as only unindexed jobs are pushed, the heap holds exactly the indexed entries. */
  lemma {:induction false} DisciplineKeepsClean(maxSize: Option<nat>, ops: seq<QueueOp>)
    requires Disciplined(maxSize, ops)
    ensures Clean(AfterOps(maxSize, ops)) && Inv(AfterOps(maxSize, ops))
  {
    OpsKeepInv(maxSize, ops);
    if ops != [] {
      var s := AfterOps(maxSize, ops[..|ops| - 1]);
      DisciplineKeepsClean(maxSize, ops[..|ops| - 1]);
      match ops[|ops| - 1]
      case Push(id, priority, time) => PushKeepsCleanIffUnindexed(s, id, priority, time);
      case PopReady(now) =>
        CleanedKeepsInv(s);
        CleanupIsInvisible(s);
        ScanKeepsClean(Cleaned(s), now);
      case Cleanup => CleanupIsInvisible(s);
      case Remove(id) =>
      case Clear =>
    }
  }

  // ---- the order in which jobs come, told by the operations

  lemma {:induction false} ScanForgets(q: QueueState, now: real)
    ensures Scan(q, now).rest.entries.Keys <= q.entries.Keys
    ensures forall id :: id in Scan(q, now).rest.entries ==> Scan(q, now).rest.entries[id] == q.entries[id]
    ensures Scan(q, now).ready.Some? ==> Scan(q, now).ready.value.jobId !in Scan(q, now).rest.entries
    decreases |q.items|
  {
    if q.items == [] {
    } else if q.items[0].jobId in q.removed {
      ScanForgets(Discarded(q), now);
    } else if q.items[0].scheduledTime > now {
      ScanForgets(q.(items := q.items[1..]), now);
    }
  }

  lemma {:induction false} CleanupForgets(s: QueueState)
    ensures Cleaned(s).entries.Keys <= s.entries.Keys
    ensures forall id :: id in Cleaned(s).entries ==> Cleaned(s).entries[id] == s.entries[id]
    ensures Cleaned(s).counter == s.counter
    ensures Cleaned(s).items != [] ==> Cleaned(s).items[0].jobId !in Cleaned(s).removed
    decreases |s.items|
  {
    if s.items != [] && s.items[0].jobId in s.removed {
      CleanupForgets(Discarded(s));
    }
  }

  /** When the job last entered the queue: the number of the last operation that pushed or replaced it, or -1. */
  ghost function EnteredAt(maxSize: Option<nat>, ops: seq<QueueOp>, id: JobId): int {
    if ops == [] then -1
    else
      var n := |ops| - 1;
      if Enters(maxSize, AfterOps(maxSize, ops[..n]), ops[n], id) then n else EnteredAt(maxSize, ops[..n], id)
  }

  ghost predicate Enters(maxSize: Option<nat>, s: QueueState, op: QueueOp, id: JobId) {
    match op
    case Push(x, _, _) => x == id && !Full(maxSize, s)
    case Replace(x, _, _) => x == id && Live(s, id)
    case _ => false
  }

  lemma {:induction false} EnteredBefore(maxSize: Option<nat>, ops: seq<QueueOp>, id: JobId)
    ensures EnteredAt(maxSize, ops, id) < |ops|
  {
    if ops != [] {
      EnteredBefore(maxSize, ops[..|ops| - 1], id);
    }
  }

  /** What an operation leaves of the index: the entries it does not make stay as they are. */
  lemma KeepsEntries(maxSize: Option<nat>, s: QueueState, op: QueueOp, id: JobId)
    requires id in Apply(maxSize, s, op).entries && !Enters(maxSize, s, op, id)
    ensures id in s.entries && Apply(maxSize, s, op).entries[id] == s.entries[id]
  {
    if op.PopReady? {
      CleanupForgets(s);
      ScanForgets(Cleaned(s), op.now);
    } else if op.Cleanup? {
      CleanupForgets(s);
    }
  }

  lemma MakesEntry(maxSize: Option<nat>, s: QueueState, op: QueueOp, id: JobId)
    requires Enters(maxSize, s, op, id)
    ensures id in Apply(maxSize, s, op).entries
    ensures Apply(maxSize, s, op).entries[id] == QueueEntry(op.priority, op.time, s.counter, id)
  {}

  /** Of two indexed jobs the one that entered earlier has the smaller number. */
  ghost predicate NumberedByEntry(maxSize: Option<nat>, ops: seq<QueueOp>, a: JobId, b: JobId) {
    var entries := AfterOps(maxSize, ops).entries;
    a in entries && b in entries ==>
      (entries[a].insertionOrder < entries[b].insertionOrder <==>
       EnteredAt(maxSize, ops, a) < EnteredAt(maxSize, ops, b))
  }

  lemma {:induction false} RunNumbersByEntry(maxSize: Option<nat>, ops: seq<QueueOp>, a: JobId, b: JobId)
    ensures NumberedByEntry(maxSize, ops, a, b)
  {
    if ops != [] {
      var n := |ops| - 1;
      var s, op := AfterOps(maxSize, ops[..n]), ops[n];
      var t := Apply(maxSize, s, op);
      OpsKeepInv(maxSize, ops[..n]);
      RunNumbersByEntry(maxSize, ops[..n], a, b);
      EnteredBefore(maxSize, ops[..n], a);
      EnteredBefore(maxSize, ops[..n], b);
      if a in t.entries && b in t.entries && a != b {
        if Enters(maxSize, s, op, a) {
          MakesEntry(maxSize, s, op, a);
          KeepsEntries(maxSize, s, op, b);
        } else {
          KeepsEntries(maxSize, s, op, a);
          if Enters(maxSize, s, op, b) {
            MakesEntry(maxSize, s, op, b);
          } else {
            KeepsEntries(maxSize, s, op, b);
          }
        }
      }
    }
  }

  /** `a` comes before `b`: by priority, then by time, then because it entered the queue earlier. */
  ghost predicate ComesFirst(maxSize: Option<nat>, ops: seq<QueueOp>, a: QueueEntry, b: QueueEntry) {
    || a.priority < b.priority
    || (a.priority == b.priority && a.scheduledTime < b.scheduledTime)
    || (a.priority == b.priority && a.scheduledTime == b.scheduledTime
        && EnteredAt(maxSize, ops, a.jobId) < EnteredAt(maxSize, ops, b.jobId))
  }

  /** That is the order in which the entries of listed jobs are kept. */
  lemma LessIsComesFirst(maxSize: Option<nat>, ops: seq<QueueOp>, a: QueueEntry, b: QueueEntry)
    requires a in Iteration(AfterOps(maxSize, ops)) && b in Iteration(AfterOps(maxSize, ops))
    ensures Less(a, b) <==> ComesFirst(maxSize, ops, a, b)
  {
    OpsKeepInv(maxSize, ops);
    IterationIsSortedIndex(AfterOps(maxSize, ops));
    RunNumbersByEntry(maxSize, ops, a.jobId, b.jobId);
  }

  lemma AscendingIndices(list: seq<QueueEntry>, i: nat, j: nat)
    requires Ascending(list) && i < |list| && j < |list|
    ensures i < j <==> Less(list[i], list[j])
  {
    assert j < i ==> Less(list[j], list[i]);
  }

  /** After any operations the iteration lists the jobs by priority, then time, then first in first out. */
  lemma IterationIsFifo(maxSize: Option<nat>, ops: seq<QueueOp>, i: nat, j: nat)
    requires i < |Iteration(AfterOps(maxSize, ops))| && j < |Iteration(AfterOps(maxSize, ops))|
    ensures var list := Iteration(AfterOps(maxSize, ops));
            i < j <==> ComesFirst(maxSize, ops, list[i], list[j])
  {
    var list := Iteration(AfterOps(maxSize, ops));
    OpsKeepInv(maxSize, ops);
    IterationIsSortedIndex(AfterOps(maxSize, ops));
    AscendingIndices(list, i, j);
    LessIsComesFirst(maxSize, ops, list[i], list[j]);
  }

  /** The entry is due, and every other one that is comes after it. */
  ghost predicate FirstDueOf(maxSize: Option<nat>, ops: seq<QueueOp>, list: seq<QueueEntry>, now: real, e: QueueEntry) {
    && e in list && e.scheduledTime <= now
    && forall f :: f in list && f.scheduledTime <= now && f != e ==> ComesFirst(maxSize, ops, e, f)
  }

  /**
   * The class promises first in, first out within a priority. It holds for two listed jobs exactly when the one that
   * entered first is not scheduled for a later time than the other.
   */
  lemma FifoWithinPriorityIff(maxSize: Option<nat>, ops: seq<QueueOp>, i: nat, j: nat)
    requires i < |Iteration(AfterOps(maxSize, ops))| && j < |Iteration(AfterOps(maxSize, ops))|
    requires var list := Iteration(AfterOps(maxSize, ops));
             && list[i].priority == list[j].priority
             && EnteredAt(maxSize, ops, list[i].jobId) < EnteredAt(maxSize, ops, list[j].jobId)
    ensures var list := Iteration(AfterOps(maxSize, ops));
            i < j <==> list[i].scheduledTime <= list[j].scheduledTime
  {
    IterationIsFifo(maxSize, ops, i, j);
  }

  /** The failing case: the job pushed second is scheduled for an earlier time. */
  lemma LaterPushListedFirst(a: JobId, b: JobId, priority: int, time: real, earlier: real)
    requires a != b && earlier < time
    ensures var ops := [Push(a, priority, time), Push(b, priority, earlier)];
            var list := Iteration(AfterOps(None, ops));
            |list| == 2 && list[0].jobId == b && list[1].jobId == a
  {
    var s, first := Pushed(Empty(), a, priority, time), [] + [Push(a, priority, time)];
    NextOp(None, [], Push(a, priority, time));
    NextOp(None, first, Push(b, priority, earlier));
    assert first + [Push(b, priority, earlier)] == [Push(a, priority, time), Push(b, priority, earlier)];
    ListsOne(a, priority, time);
    PushInserts(s, b, priority, earlier);
  }

  lemma NextOp(maxSize: Option<nat>, ops: seq<QueueOp>, op: QueueOp)
    ensures AfterOps(maxSize, ops + [op]) == Apply(maxSize, AfterOps(maxSize, ops), op)
  {
    var longer := ops + [op];
    assert longer[..|longer| - 1] == ops && longer[|longer| - 1] == op;
  }

  lemma FirstDueIsFifo(maxSize: Option<nat>, ops: seq<QueueOp>, now: real)
    ensures var list := Iteration(AfterOps(maxSize, ops)); var k := FirstDue(list, now);
            if k < |list| then FirstDueOf(maxSize, ops, list, now, list[k])
            else forall e :: e in list ==> e.scheduledTime > now
  {
    var list, k := Iteration(AfterOps(maxSize, ops)), FirstDue(Iteration(AfterOps(maxSize, ops)), now);
    forall e | e in list && e.scheduledTime <= now
      ensures k < |list| && (e != list[k] ==> ComesFirst(maxSize, ops, list[k], e))
    {
      var i :| 0 <= i < |list| && list[i] == e;
      assert k <= i;
      IterationIsFifo(maxSize, ops, k, i);
    }
  }

  /** As long as only unindexed jobs are pushed, a pop hands out, of those due, the job that all others come after. */
  lemma PopIsFifo(maxSize: Option<nat>, ops: seq<QueueOp>, now: real)
    requires Disciplined(maxSize, ops)
    ensures var s := AfterOps(maxSize, ops); var ready := Scan(s, now).ready;
            && (ready.None? ==> forall e :: e in Iteration(s) ==> e.scheduledTime > now)
            && (ready.Some? ==> FirstDueOf(maxSize, ops, Iteration(s), now, ready.value))
  {
    DisciplineKeepsClean(maxSize, ops);
    ScanTakesFirstDue(AfterOps(maxSize, ops), now);
    FirstDueIsFifo(maxSize, ops, now);
  }

  /** So a drain hands out the jobs that are due in that order. */
  lemma DrainIsFifo(maxSize: Option<nat>, ops: seq<QueueOp>, now: real, i: nat, j: nat)
    requires Disciplined(maxSize, ops)
    requires i < |Drain(AfterOps(maxSize, ops), now)| && j < |Drain(AfterOps(maxSize, ops), now)|
    ensures var drained := Drain(AfterOps(maxSize, ops), now);
            i < j <==> ComesFirst(maxSize, ops, drained[i], drained[j])
  {
    var drained := Drain(AfterOps(maxSize, ops), now);
    DisciplineKeepsClean(maxSize, ops);
    DrainIsDueOf(AfterOps(maxSize, ops), now);
    IterationIsSortedIndex(AfterOps(maxSize, ops));
    DueAscends(Iteration(AfterOps(maxSize, ops)), now);
    DueOfElements(Iteration(AfterOps(maxSize, ops)), now);
    AscendingIndices(drained, i, j);
    assert drained[i] in drained && drained[j] in drained;
    LessIsComesFirst(maxSize, ops, drained[i], drained[j]);
  }

  /** The entry is the index's for a job that `contains` accepts. */
  ghost predicate Current(s: QueueState, e: QueueEntry) {
    Live(s, e.jobId) && s.entries[e.jobId] == e
  }

  lemma ReplacedIsCurrent(s: QueueState, id: JobId, priority: int, time: real, e: QueueEntry)
    ensures Current(Pushed(s, id, priority, time), e) <==>
            if e.jobId == id then e == QueueEntry(priority, time, s.counter, id) else Current(s, e)
  {}

  /** Replacing a live job changes its own entry to the new priority and time, and no other job's. */
  lemma ReplaceUpdates(s: QueueState, id: JobId, priority: int, time: real, e: QueueEntry)
    requires Inv(s) && Live(s, id)
    ensures e in Iteration(Apply(None, s, Replace(id, priority, time))) <==>
            if e.jobId == id then e == QueueEntry(priority, time, s.counter, id) else e in Iteration(s)
  {
    PushedKeepsInv(s, id, priority, time);
    ReplacedIsCurrent(s, id, priority, time, e);
    IterationIsCurrent(s, e);
    IterationIsCurrent(Pushed(s, id, priority, time), e);
  }

  lemma IterationIsCurrent(s: QueueState, e: QueueEntry)
    requires Inv(s)
    ensures e in Iteration(s) <==> Current(s, e)
  {
    IterationIsSortedIndex(s);
  }

  /** The queue refuses a push exactly when a positive maximum is reached by the jobs that `contains` accepts. */
  lemma FullIff(max: Option<nat>, s: QueueState)
    requires Inv(s)
    ensures Full(Resolved(max), s) <==> max.Some? && max.value > 0 && |LiveIds(s)| >= max.value
  {
    LengthCounts(s, 0.0);
  }

  // ---- popping with a timeout of zero

  datatype PopOutcome = HandedOut(entry: QueueEntry) | GaveUp | GoesRound

  datatype PopResult = PopResult(outcome: PopOutcome, rest: QueueState)

  /** One turn of `pop(timeout=0)`: with nothing due it gives up only on an empty heap, else it goes round at once. */
  ghost function PopTurn(s: QueueState, now: real): PopResult {
    var p := Scan(s, now);
    PopResult(if p.ready.Some? then HandedOut(p.ready.value) else if p.rest.items == [] then GaveUp else GoesRound,
              p.rest)
  }

  /** `pop(timeout=0)`, with the clock readings of its turns. It keeps the lock, so nothing else happens meanwhile. */
  ghost function PopOver(s: QueueState, clock: seq<real>): PopResult
    decreases |clock|
  {
    if clock == [] then PopResult(GoesRound, s)
    else
      var t := PopTurn(s, clock[0]);
      if t.outcome.GoesRound? then PopOver(t.rest, clock[1..]) else t
  }

  /** A scan that hands out nothing leaves exactly the listed entries in the heap. */
  lemma {:induction false} IdleScanLeavesListing(s: QueueState, now: real)
    requires Ascending(s.items) && Clean(s) && Scan(s, now).ready.None?
    ensures Scan(s, now).rest.items == Iteration(s)
    decreases |s.items|
  {
    if s.items != [] {
      var e, tail := s.items[0], s.(items := s.items[1..]);
      assert e in s.items;
      HeadIdOnce(s);
      ListingIgnores(tail.items, s.entries, s.removed, e.jobId);
      IdleScanLeavesListing(if e.jobId in s.removed then Discarded(s) else tail, now);
    }
  }

  ghost predicate SomeDue(list: seq<QueueEntry>, now: real) {
    FirstDue(list, now) < |list|
  }

  lemma {:induction false} SomeDueIff(list: seq<QueueEntry>, now: real)
    ensures SomeDue(list, now) <==> exists e :: e in list && e.scheduledTime <= now
  {
    var k := FirstDue(list, now);
    if k < |list| {
      assert list[k] in list;
    }
  }

  /** A turn goes round exactly when jobs are listed and none of them is due; it gives up exactly on an empty queue. */
  lemma TurnGoesRoundIff(s: QueueState, now: real)
    requires Inv(s) && Clean(s)
    ensures var t, list := PopTurn(s, now), Iteration(s);
            && (t.outcome.GoesRound? <==> list != [] && forall e :: e in list ==> e.scheduledTime > now)
            && (t.outcome.GaveUp? <==> list == [])
            && (t.outcome.HandedOut? <==> SomeDue(list, now))
            && (!t.outcome.HandedOut? ==> Iteration(t.rest) == list)
            && Inv(t.rest) && Clean(t.rest)
  {
    ScanTakesFirstDue(s, now);
    ScanKeepsClean(s, now);
    ScanKeepsWhole(s, now);
    SomeDueIff(Iteration(s), now);
    if Scan(s, now).ready.None? {
      IdleScanLeavesListing(s, now);
    }
  }

  /** The number of readings at the start of the clock at which nothing is due. */
  ghost function IdleReadings(list: seq<QueueEntry>, clock: seq<real>): (k: nat)
    ensures k <= |clock| && (k < |clock| ==> SomeDue(list, clock[k]))
    ensures forall i :: 0 <= i < k ==> !SomeDue(list, clock[i])
  {
    if clock == [] || SomeDue(list, clock[0]) then 0 else 1 + IdleReadings(list, clock[1..])
  }

  /** The least due entry of the first reading at which one is due is taken; before that the call does not return. */
  ghost predicate PopsWhenDue(list: seq<QueueEntry>, clock: seq<real>, r: PopResult) {
    var k := IdleReadings(list, clock);
    if list == [] then r.outcome == (if clock == [] then GoesRound else GaveUp) && Iteration(r.rest) == []
    else if k == |clock| then r.outcome == GoesRound && Iteration(r.rest) == list
    else
      var i := FirstDue(list, clock[k]);
      r.outcome == HandedOut(list[i]) && Iteration(r.rest) == list[..i] + list[i + 1..]
  }

  /**
   * `pop(timeout=0)` gives up exactly on an empty queue. With jobs listed it returns at the first reading of the clock
   * at which one of them is due, and does not return before.
   */
  lemma {:induction false} ZeroTimeoutPops(s: QueueState, clock: seq<real>)
    requires Inv(s) && Clean(s)
    ensures PopsWhenDue(Iteration(s), clock, PopOver(s, clock))
    ensures Inv(PopOver(s, clock).rest) && Clean(PopOver(s, clock).rest)
    decreases |clock|
  {
    if clock != [] {
      var t, list := PopTurn(s, clock[0]), Iteration(s);
      TurnGoesRoundIff(s, clock[0]);
      if t.outcome.GoesRound? {
        ZeroTimeoutPops(t.rest, clock[1..]);
      } else {
        ScanTakesFirstDue(s, clock[0]);
      }
    }
  }

  /** It returns at once exactly when nothing is listed or something is due at its first reading. */
  lemma ZeroTimeoutReturnsAtOnceIff(s: QueueState, now: real)
    requires Inv(s) && Clean(s)
    ensures !PopOver(s, [now]).outcome.GoesRound? <==>
            Iteration(s) == [] || exists e :: e in Iteration(s) && e.scheduledTime <= now
  {
    ZeroTimeoutPops(s, [now]);
    SomeDueIff(Iteration(s), now);
    assert IdleReadings(Iteration(s), [now]) == if SomeDue(Iteration(s), now) then 0 else 1;
  }

  /** With one job pushed for later it does not return, however often the clock is read before that time. */
  lemma ZeroTimeoutSpins(id: JobId, priority: int, time: real, clock: seq<real>)
    requires forall i :: 0 <= i < |clock| ==> clock[i] < time
    ensures var s := AfterOps(None, [Push(id, priority, time)]);
            |Iteration(s)| == 1 && PopOver(s, clock).outcome.GoesRound?
  {
    var ops := [Push(id, priority, time)];
    assert ops[..0] == [] && AfterOps(None, []) == Empty();
    assert AfterOps(None, ops) == Pushed(Empty(), id, priority, time);
    ListsOne(id, priority, time);
    ZeroTimeoutPops(AfterOps(None, ops), clock);
  }

  lemma ListsOne(id: JobId, priority: int, time: real)
    ensures var s := Pushed(Empty(), id, priority, time);
            Inv(s) && Clean(s) && Iteration(s) == [QueueEntry(priority, time, 0, id)]
  {
    PushedKeepsInv(Empty(), id, priority, time);
    PushKeepsCleanIffUnindexed(Empty(), id, priority, time);
    PushInserts(Empty(), id, priority, time);
  }

  // ---- draining

  ghost predicate AllDue(items: seq<QueueEntry>, now: real) {
    forall e :: e in items ==> e.scheduledTime <= now
  }

  ghost function Unremoved(items: seq<QueueEntry>, removed: set<JobId>): seq<QueueEntry> {
    if items == [] then []
    else (if items[0].jobId in removed then [] else [items[0]]) + Unremoved(items[1..], removed)
  }

  /** A removed id stands at most once in the list. */
  ghost predicate RemovedOnce(items: seq<QueueEntry>, removed: set<JobId>) {
    forall i, j :: 0 <= i < j < |items| && items[i].jobId in removed ==> items[j].jobId != items[i].jobId
  }

  lemma {:induction false} UnremovedIgnores(items: seq<QueueEntry>, removed: set<JobId>, id: JobId)
    requires forall e :: e in items ==> e.jobId != id
    ensures Unremoved(items, removed - {id}) == Unremoved(items, removed)
  {
    if items != [] {
      assert items[0] in items;
      UnremovedIgnores(items[1..], removed, id);
    }
  }

  /** Draining a fully due heap hands out every entry whose id is not removed, indexed or not. */
  lemma {:induction false} DrainHandsOut(s: QueueState, now: real)
    requires AllDue(s.items, now) && RemovedOnce(s.items, s.removed)
    ensures Drain(s, now) == Unremoved(s.items, s.removed)
    decreases |s.items|
  {
    if s.items != [] {
      var e := s.items[0];
      assert e in s.items;
      assert forall x :: x in s.items[1..] ==> x in s.items;
      if e.jobId in s.removed {
        var t := Discarded(s);
        assert forall i, j :: 0 <= i < j < |t.items| ==> t.items[i] == s.items[i + 1] && t.items[j] == s.items[j + 1];
        DrainHandsOut(t, now);
        assert forall x :: x in t.items ==> x.jobId != e.jobId;
        UnremovedIgnores(t.items, s.removed, e.jobId);
        assert Drain(s, now) == Drain(t, now);
      } else {
        var t := Scan(s, now).rest;
        assert forall i, j :: 0 <= i < j < |t.items| ==> t.items[i] == s.items[i + 1] && t.items[j] == s.items[j + 1];
        DrainHandsOut(t, now);
      }
    }
  }

  lemma {:induction false} UnremovedIsListing(s: QueueState)
    requires Clean(s)
    ensures Unremoved(s.items, s.removed) == Iteration(s)
    decreases |s.items|
  {
    if s.items != [] {
      assert s.items[0] in s.items;
      UnremovedIsListing(s.(items := s.items[1..]));
    }
  }

  /** Draining a fully due clean queue hands the jobs out in exactly the order of iteration. */
  lemma DrainFollowsIteration(s: QueueState, now: real)
    requires Inv(s) && Clean(s) && AllDue(s.items, now)
    ensures Drain(s, now) == Iteration(s)
  {
    forall i, j | 0 <= i < j < |s.items| ensures s.items[i].jobId != s.items[j].jobId {
      assert s.items[i] in s.items && s.items[j] in s.items;
      assert Less(s.items[i], s.items[j]);
    }
    DrainHandsOut(s, now);
    UnremovedIsListing(s);
  }

  /** The entries that are due, in the order of the list. */
  ghost function DueOf(list: seq<QueueEntry>, now: real): seq<QueueEntry> {
    if list == [] then [] else (if list[0].scheduledTime <= now then [list[0]] else []) + DueOf(list[1..], now)
  }

  lemma {:induction false} DueOfElements(list: seq<QueueEntry>, now: real)
    ensures forall e :: e in DueOf(list, now) <==> e in list && e.scheduledTime <= now
  {
    if list != [] {
      DueOfElements(list[1..], now);
      assert list == [list[0]] + list[1..];
    }
  }

  lemma {:induction false} DueOfBoth(a: seq<QueueEntry>, b: seq<QueueEntry>, now: real)
    ensures DueOf(a + b, now) == DueOf(a, now) + DueOf(b, now)
  {
    if a == [] {
      assert a + b == b;
    } else {
      var head := if a[0].scheduledTime <= now then [a[0]] else [];
      TailOfBoth(a, b);
      DueOfBoth(a[1..], b, now);
      assert DueOf(a + b, now) == head + DueOf((a + b)[1..], now);
      assert DueOf(a, now) == head + DueOf(a[1..], now);
    }
  }

  lemma TailOfBoth(a: seq<QueueEntry>, b: seq<QueueEntry>)
    requires a != []
    ensures (a + b)[0] == a[0] && (a + b)[1..] == a[1..] + b
  {}

  lemma {:induction false} NoneDue(list: seq<QueueEntry>, now: real)
    requires forall e :: e in list ==> e.scheduledTime > now
    ensures DueOf(list, now) == []
  {
    if list != [] {
      assert list[0] in list;
      NoneDue(list[1..], now);
    }
  }

  lemma DueSplits(early: seq<QueueEntry>, e: QueueEntry, late: seq<QueueEntry>, now: real)
    requires (forall x :: x in early ==> x.scheduledTime > now) && e.scheduledTime <= now
    ensures DueOf(early + ([e] + late), now) == [e] + DueOf(early + late, now)
  {
    NoneDue(early, now);
    DueOfBoth(early, [e] + late, now);
    DueOfBoth(early, late, now);
    assert ([e] + late)[1..] == late;
  }

  lemma DueTakesFirst(list: seq<QueueEntry>, now: real)
    ensures var k := FirstDue(list, now);
            DueOf(list, now) == if k < |list| then [list[k]] + DueOf(list[..k] + list[k + 1..], now) else []
  {
    var k := FirstDue(list, now);
    NoneDueBefore(list, now);
    if k < |list| {
      DueSplits(list[..k], list[k], list[k + 1..], now);
      SplitAround(list, k);
    } else {
      assert list[..k] == list;
      NoneDue(list, now);
    }
  }

  lemma NoneDueBefore(list: seq<QueueEntry>, now: real)
    ensures forall x :: x in list[..FirstDue(list, now)] ==> x.scheduledTime > now
  {}

  lemma SplitAround(list: seq<QueueEntry>, k: nat)
    requires k < |list|
    ensures list[..k] + ([list[k]] + list[k + 1..]) == list
  {}

  lemma DrainUnfolds(s: QueueState, list: seq<QueueEntry>, now: real)
    requires Inv(s) && Clean(s) && Iteration(s) == list
    ensures var k, rest := FirstDue(list, now), Scan(s, now).rest;
            && Drain(s, now) == (if k < |list| then [list[k]] + Drain(rest, now) else [])
            && (k < |list| ==> Iteration(rest) == list[..k] + list[k + 1..] && |rest.items| < |s.items|)
            && Inv(rest) && Clean(rest)
  {
    ScanShrinks(s, now);
    ScanTakesFirstDue(s, now);
    ScanKeepsClean(s, now);
    ScanKeepsWhole(s, now);
  }

  lemma {:induction false} DrainIsDueOfList(s: QueueState, list: seq<QueueEntry>, now: real)
    requires Inv(s) && Clean(s) && Iteration(s) == list
    ensures Drain(s, now) == DueOf(list, now)
    decreases |s.items|
  {
    var k := FirstDue(list, now);
    DrainUnfolds(s, list, now);
    DueTakesFirst(list, now);
    if k < |list| {
      DrainIsDueOfList(Scan(s, now).rest, list[..k] + list[k + 1..], now);
    }
  }

  /** Draining a clean queue hands out exactly the jobs that are due, in the order of iteration. */
  lemma DrainIsDueOf(s: QueueState, now: real)
    requires Inv(s) && Clean(s)
    ensures Drain(s, now) == DueOf(Iteration(s), now)
  {
    DrainIsDueOfList(s, Iteration(s), now);
  }

  ghost function IdsOf(list: seq<QueueEntry>): seq<JobId> {
    seq(|list|, i requires 0 <= i < |list| => list[i].jobId)
  }

  lemma {:induction false} DueAscends(list: seq<QueueEntry>, now: real)
    requires Ascending(list)
    ensures Ascending(DueOf(list, now))
  {
    if list != [] {
      var rest := DueOf(list[1..], now);
      DueAscends(list[1..], now);
      DueOfElements(list[1..], now);
      forall x | x in rest ensures Less(list[0], x) {
        TailOf(list, x);
        var i :| 0 <= i < |list| && list[i] == x;
      }
      HeadFirst(list[0], rest);
    }
  }

  /** What `get_stats` counts as ready is what a drain hands out: each ready job once, and no other. */
  lemma ReadyAreDrained(s: QueueState, now: real)
    requires Inv(s) && Clean(s)
    ensures |ReadyIds(s, now)| == |Drain(s, now)|
    ensures forall e :: e in Drain(s, now) ==> e.jobId in ReadyIds(s, now)
  {
    var drained := Drain(s, now);
    var ids := IdsOf(drained);
    DrainIsDueOf(s, now);
    IterationIsSortedIndex(s);
    DueAscends(Iteration(s), now);
    DueOfElements(Iteration(s), now);
    forall i, j | 0 <= i < j < |ids| ensures ids[i] != ids[j] {
      assert drained[i] in drained && drained[j] in drained && Less(drained[i], drained[j]);
    }
    forall id ensures id in Elements(ids) <==> id in ReadyIds(s, now) {
      if id in ReadyIds(s, now) {
        assert s.entries[id] in drained;
        var i :| 0 <= i < |drained| && drained[i] == s.entries[id];
        assert ids[i] == id;
      }
      if id in ids {
        var i :| 0 <= i < |ids| && ids[i] == id;
        assert drained[i] in drained;
      }
    }
    assert Elements(ids) == ReadyIds(s, now);
    DistinctCardinality(ids);
  }

  lemma {:induction false} UnremovedHolds(items: seq<QueueEntry>, removed: set<JobId>, e: QueueEntry)
    requires e in items && e.jobId !in removed
    ensures e in Unremoved(items, removed)
  {
    if e != items[0] {
      UnremovedHolds(items[1..], removed, e);
    }
  }

  lemma RepushKeepsRemovedOnce(s: QueueState, id: JobId, priority: int, time: real)
    requires Inv(s) && Clean(s)
    ensures RemovedOnce(Pushed(s, id, priority, time).items, s.removed - {id})
  {
    var items := Pushed(s, id, priority, time).items;
    InsertedAscends(s.items, QueueEntry(priority, time, s.counter, id));
    forall i, j | 0 <= i < j < |items| && items[i].jobId in s.removed - {id} ensures items[j].jobId != items[i].jobId {
      assert items[i] in items && items[j] in items;
      assert Less(items[i], items[j]);
    }
  }

  lemma RepushHandsOut(s: QueueState, id: JobId, priority: int, time: real, now: real)
    requires Inv(s) && Clean(s) && id in s.entries && AllDue(s.items, now) && time <= now
    ensures var t, e := Pushed(s, id, priority, time), QueueEntry(priority, time, s.counter, id);
            && Drain(t, now) == Unremoved(t.items, t.removed)
            && e in t.items && s.entries[id] in t.items && s.entries[id] != e
  {
    var t, e := Pushed(s, id, priority, time), QueueEntry(priority, time, s.counter, id);
    InsertedAscends(s.items, e);
    RepushKeepsRemovedOnce(s, id, priority, time);
    assert AllDue(t.items, now);
    DrainHandsOut(t, now);
  }

  /**
   * Pushing an indexed job again, also one already removed, or replacing it, makes a later drain hand it out twice
   * although the length counts it once: the old entry is live again because removal is recorded by id.
   */
  lemma RepushDeliversTwice(s: QueueState, id: JobId, priority: int, time: real, now: real)
    requires Inv(s) && Clean(s) && id in s.entries
    requires AllDue(s.items, now) && time <= now
    ensures var t, again := Pushed(s, id, priority, time), QueueEntry(priority, time, s.counter, id);
            && s.entries[id] != again && s.entries[id].jobId == id
            && s.entries[id] in Drain(t, now) && again in Drain(t, now)
            && t.entries.Keys == s.entries.Keys && Live(t, id)
  {
    var t, e := Pushed(s, id, priority, time), QueueEntry(priority, time, s.counter, id);
    var first := s.entries[id];
    RepushHandsOut(s, id, priority, time, now);
    UnremovedHolds(t.items, t.removed, e);
    UnremovedHolds(t.items, t.removed, first);
  }

  // ---- the queue object

  /** The heap holds exactly the entries of the ascending list. */
  ghost predicate Represents(heap: seq<QueueEntry>, items: seq<QueueEntry>) {
    IsHeap(heap) && multiset(heap) == multiset(items) && Ascending(items)
  }

  lemma SameEmptiness(heap: seq<QueueEntry>, items: seq<QueueEntry>)
    requires multiset(heap) == multiset(items)
    ensures |heap| == |items|
  {
    assert |multiset(heap)| == |heap| && |multiset(items)| == |items|;
  }

  /** The root of the heap is the head of the ascending list. */
  lemma RootIsHead(heap: seq<QueueEntry>, items: seq<QueueEntry>)
    requires Represents(heap, items) && heap != []
    ensures items != [] && heap[0] == items[0]
  {
    SameEmptiness(heap, items);
    ElementOfMultiset(heap, items, heap[0]);
    ElementOfMultiset(items, heap, items[0]);
    var i :| 0 <= i < |heap| && heap[i] == items[0];
    RootIsLeast(heap, i);
  }

  method PopHead(heap: seq<QueueEntry>, ghost items: seq<QueueEntry>) returns (head: QueueEntry, h: seq<QueueEntry>)
    requires Represents(heap, items) && heap != []
    ensures items != [] && head == items[0] && Represents(h, items[1..]) && |h| < |heap|
  {
    head, h := HeapPop(heap);
    SameEmptiness(heap, items);
    SameEmptiness(heap, h + [head]);
    assert head in multiset(heap) && items[0] in multiset(heap);
    assert items == [items[0]] + items[1..];
    assert multiset(h) == multiset(heap) - multiset{head};
  }

  /** The loop of `_get_ready_job`: takes entries off the heap until one is due. */
  method ScanHeap(heap: seq<QueueEntry>, entryMap: map<JobId, QueueEntry>, removed: set<JobId>, now: real,
        ghost s: QueueState)
    returns (ready: Option<QueueEntry>, h: seq<QueueEntry>, entries: map<JobId, QueueEntry>, rem: set<JobId>,
             buffer: seq<QueueEntry>, ghost items: seq<QueueEntry>)
    requires Represents(heap, s.items) && entryMap == s.entries && removed == s.removed
    ensures Represents(h, items) && Scan(s, now).ready == ready
    ensures Scan(s, now).rest.items == buffer + items && Scan(s, now).rest.removed == rem
    ensures Scan(s, now).rest.entries == if ready.Some? then entries - {ready.value.jobId} else entries
    ensures Scan(s, now).rest.counter == s.counter
  {
    ready, h, entries, rem, buffer, items := None, heap, entryMap, removed, [], s.items;
    ghost var t := s;
    while h != []
      invariant Represents(h, t.items) && t == QueueState(items, entries, rem, s.counter)
      invariant SameScan(s, buffer, t, now)
      decreases |h|
    {
      RootIsHead(h, items);
      ghost var before := t;
      var entry;
      entry, h := PopHead(h, items);
      items := items[1..];
      if entry.jobId in rem {
        rem := rem - {entry.jobId};
        if entry.jobId in entries {
          entries := entries - {entry.jobId};
        }
        t := Discarded(before);
        assert before.entries - {entry.jobId} == entries;
      } else if entry.scheduledTime <= now {
        ready := Some(entry);
        return;
      } else {
        buffer := buffer + [entry];
        t := before.(items := items);
        PassOver(s, buffer[..|buffer| - 1], before, now);
      }
    }
    SameEmptiness(h, items);
  }

  /** Scanning `s` amounts to scanning `t` and putting the buffer back in front. */
  ghost predicate SameScan(s: QueueState, buffer: seq<QueueEntry>, t: QueueState, now: real) {
    var p, q := Scan(s, now), Scan(t, now);
    && p.ready == q.ready
    && p.rest.items == buffer + q.rest.items
    && p.rest.entries == q.rest.entries && p.rest.removed == q.rest.removed && p.rest.counter == q.rest.counter
  }

  lemma PassOver(s: QueueState, buffer: seq<QueueEntry>, t: QueueState, now: real)
    requires SameScan(s, buffer, t, now)
    requires t.items != [] && t.items[0].jobId !in t.removed && t.items[0].scheduledTime > now
    ensures SameScan(s, buffer + [t.items[0]], t.(items := t.items[1..]), now)
  {
    var q := Scan(t.(items := t.items[1..]), now);
    assert buffer + ([t.items[0]] + q.rest.items) == buffer + [t.items[0]] + q.rest.items;
  }

  /** The loop of `_cleanup_removed`. */
  method CleanHeap(heap: seq<QueueEntry>, entryMap: map<JobId, QueueEntry>, removed: set<JobId>, ghost s: QueueState)
    returns (h: seq<QueueEntry>, entries: map<JobId, QueueEntry>, rem: set<JobId>, ghost items: seq<QueueEntry>)
    requires Represents(heap, s.items) && entryMap == s.entries && removed == s.removed
    ensures Represents(h, items) && Cleaned(s) == QueueState(items, entries, rem, s.counter)
    ensures Inv(s) ==> Inv(QueueState(items, entries, rem, s.counter))
  {
    if Inv(s) {
      CleanedKeepsInv(s);
    }
    h, entries, rem, items := heap, entryMap, removed, s.items;
    ghost var t := s;
    while h != [] && h[0].jobId in rem
      invariant Represents(h, t.items) && t == QueueState(items, entries, rem, s.counter)
      invariant Cleaned(s) == Cleaned(t)
      decreases |h|
    {
      RootIsHead(h, items);
      var entry;
      entry, h := PopHead(h, items);
      items := items[1..];
      rem := rem - {entry.jobId};
      if entry.jobId in entries {
        entries := entries - {entry.jobId};
      }
      assert t.entries - {entry.jobId} == entries;
      t := Discarded(t);
    }
    if h != [] {
      RootIsHead(h, items);
    } else {
      SameEmptiness(h, items);
    }
  }

  /** Pushes the passed-over entries back. */
  method Restore(buffer: seq<QueueEntry>, heap: seq<QueueEntry>,
        ghost items: seq<QueueEntry>) returns (h: seq<QueueEntry>)
    requires Represents(heap, items) && Ascending(buffer + items)
    ensures Represents(h, buffer + items)
  {
    h := heap;
    for i := 0 to |buffer|
      invariant IsHeap(h) && multiset(h) == multiset(items) + multiset(buffer[..i])
    {
      h := HeapPush(h, buffer[i]);
      assert buffer[..i + 1] == buffer[..i] + [buffer[i]];
    }
    assert buffer[..|buffer|] == buffer;
  }

  /** The scan and the pushing back of what it passed over. */
  method TakeReady(heap: seq<QueueEntry>, entryMap: map<JobId, QueueEntry>, removed: set<JobId>, now: real,
                   ghost s: QueueState)
    returns (ready: Option<QueueEntry>, h: seq<QueueEntry>, entries: map<JobId, QueueEntry>, rem: set<JobId>,
             ghost items: seq<QueueEntry>)
    requires Represents(heap, s.items) && entryMap == s.entries && removed == s.removed
    requires Ascending(Scan(s, now).rest.items)
    ensures Represents(h, items) && Scan(s, now) == Popped(ready, QueueState(items, entries, rem, s.counter))
  {
    var buffer;
    ready, h, entries, rem, buffer, items := ScanHeap(heap, entryMap, removed, now, s);
    h := Restore(buffer, h, items);
    items := buffer + items;
    if ready.Some? {
      if ready.value.jobId in entries {
        entries := entries - {ready.value.jobId};
      }
    }
    assert entries == Scan(s, now).rest.entries;
  }

  lemma RemovedKeepsInv(s: QueueState, id: JobId, priority: int, time: real)
    requires Inv(s)
    ensures Inv(Removed(s, id)) && Pushed(Removed(s, id), id, priority, time) == Pushed(s, id, priority, time)
  {
    assert s.removed + {id} - {id} == s.removed - {id};
  }

  lemma ScanKeepsWhole(s: QueueState, now: real)
    requires Inv(s)
    ensures Inv(Scan(s, now).rest)
  {
    ScanKeepsInv([], s, now);
    assert [] + s.items == s.items;
    assert s == s.(items := [] + s.items);
    var t := Scan(s, now).rest;
    assert [] + t.items == t.items;
    assert t == t.(items := [] + t.items);
  }

  class ThreadSafePriorityQueue {
    const maxSize: Option<nat>
    var heap: seq<QueueEntry>
    var entryMap: map<JobId, QueueEntry>
    var removed: set<JobId>
    var counter: nat
    var isShutdown: bool
    ghost var items: seq<QueueEntry>

    ghost function State(): QueueState
      reads this
    {
      QueueState(items, entryMap, removed, counter)
    }

    ghost predicate Valid()
      reads this
    {
      Represents(heap, items) && Inv(State())
    }

    constructor (max: Option<nat>)
      ensures Valid() && State() == Empty() && maxSize == Resolved(max) && !isShutdown
    {
      maxSize := Resolved(max);
      isShutdown := false;
      heap, entryMap, removed, counter, items := [], map[], {}, 0, [];
    }

    method Len() returns (n: int)
      requires Valid()
      ensures n == Length(State()) == |LiveIds(State())|
    {
      LengthCounts(State(), 0.0);
      n := |entryMap| - |removed|;
    }

    /** Puts a new entry into the heap and the index; the id no longer counts as removed. */
    method Insert(id: JobId, priority: int, time: real)
      requires Valid()
      modifies this
      ensures Valid() && unchanged(`isShutdown)
      ensures State() == Pushed(old(State()), id, priority, time)
    {
      PushedKeepsInv(State(), id, priority, time);
      var entry := QueueEntry(priority, time, counter, id);
      counter := counter + 1;
      heap := HeapPush(heap, entry);
      items := Inserted(items, entry);
      entryMap := entryMap[id := entry];
      removed := removed - {id};
    }

    method Push(id: JobId, priority: int, time: real) returns (ok: bool)
      requires Valid()
      modifies this
      ensures Valid() && unchanged(`isShutdown) && ok == !Full(maxSize, old(State()))
      ensures State() == Apply(maxSize, old(State()), QueueOp.Push(id, priority, time))
    {
      var n := Len();
      if maxSize.Some? && n >= maxSize.value {
        return false;
      }
      RemovedKeepsInv(State(), id, priority, time);
      if id in entryMap && id !in removed {
        removed := removed + {id};
      }
      assert State() == Removed(old(State()), id);
      Insert(id, priority, time);
      return true;
    }

    /** `_cleanup_removed`. */
    method CleanupRemoved()
      requires Valid()
      modifies this
      ensures Valid() && unchanged(`isShutdown)
      ensures State() == Cleaned(old(State()))
    {
      heap, entryMap, removed, items := CleanHeap(heap, entryMap, removed, State());
    }

    /** `_get_ready_job`. */
    method GetReadyJob(now: real) returns (ready: Option<QueueEntry>)
      requires Valid()
      modifies this
      ensures Valid() && unchanged(`isShutdown)
      ensures ready == Scan(old(State()), now).ready && State() == Scan(old(State()), now).rest
    {
      ScanKeepsWhole(State(), now);
      ready, heap, entryMap, removed, items := TakeReady(heap, entryMap, removed, now, State());
    }

    /** `pop(timeout=0)`: `clock` holds the readings of the clock, one for each turn of its loop. */
    method PopNowait(clock: seq<real>) returns (r: PopOutcome)
      requires Valid()
      modifies this
      ensures Valid() && unchanged(`isShutdown)
      ensures isShutdown ==> r == GaveUp && State() == old(State())
      ensures !isShutdown ==> PopResult(r, State()) == PopOver(old(State()), clock)
      ensures !isShutdown && Clean(old(State())) ==>
                Clean(State()) && PopsWhenDue(old(Iteration(State())), clock, PopResult(r, State()))
    {
      if Clean(State()) {
        ZeroTimeoutPops(State(), clock);
      }
      if isShutdown {
        return GaveUp;
      }
      for i := 0 to |clock|
        invariant Valid() && unchanged(`isShutdown)
        invariant PopOver(old(State()), clock) == PopOver(State(), clock[i..])
      {
        ScanAbsorbsCleanup(State(), clock[i]);
        CleanupRemoved();
        var ready := GetReadyJob(clock[i]);
        if ready.Some? {
          return HandedOut(ready.value);
        }
        SameEmptiness(heap, items);
        if heap == [] {
          return GaveUp;
        }
        assert clock[i..][1..] == clock[i + 1..];
      }
      return GoesRound;
    }

    method Shutdown()
      requires Valid()
      modifies this`isShutdown
      ensures Valid() && isShutdown && State() == old(State())
    {
      isShutdown := true;
    }

    method Remove(id: JobId) returns (found: bool)
      requires Valid()
      modifies this`removed
      ensures Valid() && found == old(Live(State(), id)) && State() == Removed(old(State()), id)
    {
      if id in entryMap && id !in removed {
        removed := removed + {id};
        return true;
      }
      return false;
    }

    method Contains(id: JobId) returns (b: bool)
      requires Valid()
      ensures b <==> exists e :: e in Iteration(State()) && e.jobId == id
    {
      IterationIsSortedIndex(State());
      b := id in entryMap && id !in removed;
      assert b ==> entryMap[id] in Iteration(State());
    }

    /** `time` is the time the job is scheduled for. */
    method UpdatePriority(id: JobId, priority: int, time: real) returns (found: bool)
      requires Valid()
      modifies this
      ensures Valid() && unchanged(`isShutdown) && found == old(Live(State(), id))
      ensures State() == Apply(maxSize, old(State()), Replace(id, priority, time))
    {
      if id !in entryMap || id in removed {
        return false;
      }
      RemovedKeepsInv(State(), id, priority, time);
      removed := removed + {id};
      assert State() == Removed(old(State()), id);
      Insert(id, priority, time);
      return true;
    }

    /** `priority` is the priority of the job. */
    method Reschedule(id: JobId, priority: int, time: real) returns (found: bool)
      requires Valid()
      modifies this
      ensures Valid() && unchanged(`isShutdown) && found == old(Live(State(), id))
      ensures State() == Apply(maxSize, old(State()), Replace(id, priority, time))
    {
      found := UpdatePriority(id, priority, time);
    }

    method Clear() returns (count: int)
      requires Valid()
      modifies this
      ensures Valid() && unchanged(`isShutdown) && count == old(Length(State())) && State() == Empty()
    {
      count := Len();
      heap, entryMap, removed, counter, items := [], map[], {}, 0, [];
    }

    method GetStats(now: real)
      returns (total: int, ready: nat, scheduled: nat, byPriority: map<int, nat>, heapSize: nat, removedCount: nat)
      requires Valid()
      ensures ready == |ReadyIds(State(), now)| && scheduled == |ScheduledIds(State(), now)|
      ensures total == ready + scheduled
      ensures CountsByPriority(State(), State().entries.Keys, byPriority)
      ensures heapSize == |State().items| && removedCount == |State().removed|
    {
      ready, scheduled := CountEntries(entryMap, removed, now, State());
      byPriority := CountPriorities(entryMap, removed, State());
      LengthCounts(State(), now);
      total := Len();
      SameEmptiness(heap, items);
      heapSize, removedCount := |heap|, |removed|;
    }

    /** `__iter__`. */
    method Iterate() returns (list: seq<QueueEntry>)
      requires Valid()
      ensures list == Iteration(State())
    {
      list := [];
      var rest := entryMap.Keys;
      while rest != {}
        invariant rest <= entryMap.Keys && Ascending(list)
        invariant forall e :: e in list <==> Live(State(), e.jobId) && e.jobId !in rest && entryMap[e.jobId] == e
        decreases rest
      {
        var id :| id in rest;
        if id !in removed {
          InsertionIsNew(State(), list, id);
          InsertedAscends(list, entryMap[id]);
          list := Inserted(list, entryMap[id]);
        }
        rest := rest - {id};
      }
      IterationIsSortedIndex(State());
      AscendingIsUnique(list, Iteration(State()));
    }
  }

  lemma CountOne(s: QueueState, now: real, ids: set<JobId>, id: JobId)
    requires id !in ids && id in s.entries
    ensures |DueAmong(s, now, ids + {id})| ==
            |DueAmong(s, now, ids)| + if Live(s, id) && s.entries[id].scheduledTime <= now then 1 else 0
    ensures |LaterAmong(s, now, ids + {id})| ==
            |LaterAmong(s, now, ids)| + if Live(s, id) && s.entries[id].scheduledTime > now then 1 else 0
  {
    var due, later := DueAmong(s, now, ids), LaterAmong(s, now, ids);
    var isDue := s.entries[id].scheduledTime <= now;
    assert DueAmong(s, now, ids + {id}) == if Live(s, id) && isDue then due + {id} else due;
    assert LaterAmong(s, now, ids + {id}) == if Live(s, id) && !isDue then later + {id} else later;
  }

  /** The counting loop of `get_stats`. */
  method CountEntries(entryMap: map<JobId, QueueEntry>, removed: set<JobId>, now: real, ghost s: QueueState)
    returns (ready: nat, scheduled: nat)
    requires entryMap == s.entries && removed == s.removed
    ensures ready == |ReadyIds(s, now)| && scheduled == |ScheduledIds(s, now)|
  {
    ready, scheduled := 0, 0;
    var rest := entryMap.Keys;
    ghost var done := {};
    assert DueAmong(s, now, {}) == {} && LaterAmong(s, now, {}) == {};
    while rest != {}
      invariant rest !! done && rest + done == entryMap.Keys
      invariant ready == |DueAmong(s, now, done)| && scheduled == |LaterAmong(s, now, done)|
      decreases rest
    {
      var id :| id in rest;
      CountOne(s, now, done, id);
      if id !in removed {
        if entryMap[id].scheduledTime <= now {
          ready := ready + 1;
        } else {
          scheduled := scheduled + 1;
        }
      }
      rest, done := rest - {id}, done + {id};
    }
    assert done == s.entries.Keys;
  }

  ghost function WithPriority(s: QueueState, ids: set<JobId>, p: int): set<JobId> {
    set id | id in ids && Live(s, id) && s.entries[id].priority == p
  }

  /** The counts are those of the live jobs of each priority, with no entry for a priority without jobs. */
  ghost predicate CountsByPriority(s: QueueState, ids: set<JobId>, counts: map<int, nat>) {
    forall p {:trigger WithPriority(s, ids, p)} ::
      |WithPriority(s, ids, p)| == (if p in counts then counts[p] else 0) && (p in counts ==> counts[p] > 0)
  }

  lemma WithPriorityNext(s: QueueState, ids: set<JobId>, id: JobId, p: int)
    requires id !in ids && id in s.entries
    ensures |WithPriority(s, ids + {id}, p)| ==
            |WithPriority(s, ids, p)| + if Live(s, id) && s.entries[id].priority == p then 1 else 0
  {
    var before := WithPriority(s, ids, p);
    assert WithPriority(s, ids + {id}, p) ==
           if Live(s, id) && s.entries[id].priority == p then before + {id} else before;
  }

  lemma CountPriority(s: QueueState, ids: set<JobId>, counts: map<int, nat>, id: JobId)
    requires CountsByPriority(s, ids, counts) && id !in ids && id in s.entries
    ensures var p := s.entries[id].priority;
            CountsByPriority(s, ids + {id},
              if Live(s, id) then counts[p := (if p in counts then counts[p] else 0) + 1] else counts)
  {
    var q := s.entries[id].priority;
    var counts' := if Live(s, id) then counts[q := (if q in counts then counts[q] else 0) + 1] else counts;
    forall p {:trigger WithPriority(s, ids + {id}, p)}
      ensures |WithPriority(s, ids + {id}, p)| == (if p in counts' then counts'[p] else 0)
      ensures p in counts' ==> counts'[p] > 0
    {
      WithPriorityNext(s, ids, id, p);
    }
    assert CountsByPriority(s, ids + {id}, counts');
  }

  /** The loop of `get_stats` over the priorities. */
  method CountPriorities(entryMap: map<JobId, QueueEntry>, removed: set<JobId>, ghost s: QueueState)
    returns (counts: map<int, nat>)
    requires entryMap == s.entries && removed == s.removed
    ensures CountsByPriority(s, s.entries.Keys, counts)
  {
    counts := map[];
    var rest := entryMap.Keys;
    ghost var done := {};
    assert forall p :: WithPriority(s, {}, p) == {};
    while rest != {}
      invariant rest !! done && rest + done == entryMap.Keys
      invariant CountsByPriority(s, done, counts)
      decreases rest
    {
      var id :| id in rest;
      CountPriority(s, done, counts, id);
      if id !in removed {
        var p := entryMap[id].priority;
        counts := counts[p := (if p in counts then counts[p] else 0) + 1];
      }
      rest, done := rest - {id}, done + {id};
    }
    assert done == s.entries.Keys;
  }

  lemma InsertionIsNew(s: QueueState, list: seq<QueueEntry>, id: JobId)
    requires Inv(s) && id in s.entries
    requires forall e :: e in list ==> e.jobId in s.entries && e.jobId != id && s.entries[e.jobId] == e
    ensures forall e :: e in list ==> e.insertionOrder != s.entries[id].insertionOrder
  {
    forall e | e in list ensures e.insertionOrder != s.entries[id].insertionOrder {
      assert e in s.items && s.entries[id] in s.items && e != s.entries[id];
    }
  }
}
