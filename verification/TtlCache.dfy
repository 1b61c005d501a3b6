/** The LRU cache with time-to-live of `src/core/cache.py`. */
module TtlCaches {
  import opened Collections
  import opened Wrappers

  datatype Key = Key(name: string)

  datatype Value = Value(content: string)

  datatype CacheEntry = CacheEntry(key: Key, value: Value, time: real)

  /** The ordered dictionary, least recently used entry first, and the two counters. */
  datatype Cache = Cache(entries: seq<CacheEntry>, hits: nat, misses: nat)

  // ---- the ordered dictionary

  predicate Has(entries: seq<CacheEntry>, key: Key) {
    exists i :: 0 <= i < |entries| && entries[i].key == key
  }

  function Lookup(entries: seq<CacheEntry>, key: Key): (e: CacheEntry)
    requires Has(entries, key)
    ensures e in entries && e.key == key
  {
    if entries[0].key == key then entries[0]
    else
      assert Has(entries[1..], key) by {
        var i :| 0 <= i < |entries| && entries[i].key == key;
        assert entries[1..][i - 1].key == key;
      }
      Lookup(entries[1..], key)
  }

  function Without(entries: seq<CacheEntry>, key: Key): (r: seq<CacheEntry>)
    ensures forall e :: e in r <==> e in entries && e.key != key
  {
    if entries == [] then []
    else (if entries[0].key == key then [] else [entries[0]]) + Without(entries[1..], key)
  }

  ghost predicate UniqueKeys(entries: seq<CacheEntry>) {
    forall i, j :: 0 <= i < j < |entries| ==> entries[i].key != entries[j].key
  }

  lemma LookupIsUnique(entries: seq<CacheEntry>, e: CacheEntry)
    requires UniqueKeys(entries) && e in entries
    ensures Has(entries, e.key) && Lookup(entries, e.key) == e
  {
    var i :| 0 <= i < |entries| && entries[i] == e;
    var f := Lookup(entries, e.key);
    var j :| 0 <= j < |entries| && entries[j] == f;
  }

  lemma {:induction false} WithoutFacts(entries: seq<CacheEntry>, key: Key)
    requires UniqueKeys(entries)
    ensures UniqueKeys(Without(entries, key))
    ensures |Without(entries, key)| == |entries| - if Has(entries, key) then 1 else 0
  {
    if entries != [] {
      var tail, rest := entries[1..], Without(entries[1..], key);
      assert forall i :: 0 <= i < |tail| ==> tail[i] == entries[i + 1];
      WithoutFacts(tail, key);
      assert Has(entries, key) <==> entries[0].key == key || Has(tail, key);
      forall j | 0 <= j < |rest| ensures rest[j].key != entries[0].key {
        assert rest[j] in rest;
        assert rest[j] in tail;
      }
    }
  }

  // ---- the operations, on values

  function GetResult(ttl: real, c: Cache, key: Key, now: real): Option<Value> {
    if Has(c.entries, key) && now - Lookup(c.entries, key).time < ttl then Some(Lookup(c.entries, key).value) else None
  }

  /** A hit moves the entry to the end; a miss drops the entry if it has expired. */
  function Got(ttl: real, c: Cache, key: Key, now: real): Cache {
    var rest := Without(c.entries, key);
    if GetResult(ttl, c, key, now).Some? then Cache(rest + [Lookup(c.entries, key)], c.hits + 1, c.misses)
    else Cache(rest, c.hits, c.misses + 1)
  }

  /** At most one entry is evicted, the least recently used one. */
  function Put(maxsize: int, c: Cache, key: Key, value: Value, now: real): Cache {
    var entries := Without(c.entries, key) + [CacheEntry(key, value, now)];
    c.(entries := if |entries| > maxsize then entries[1..] else entries)
  }

  datatype CacheOp = Get(key: Key, now: real) | Set(key: Key, value: Value, now: real) | Clear

  ghost function Step(maxsize: int, ttl: real, c: Cache, op: CacheOp): Cache {
    match op
    case Get(key, now) => Got(ttl, c, key, now)
    case Set(key, value, now) => Put(maxsize, c, key, value, now)
    case Clear => Cache([], 0, 0)
  }

  ghost function After(maxsize: int, ttl: real, ops: seq<CacheOp>): Cache {
    if ops == [] then Cache([], 0, 0)
    else Step(maxsize, ttl, After(maxsize, ttl, ops[..|ops| - 1]), ops[|ops| - 1])
  }

  function Capacity(maxsize: int): nat {
    if maxsize > 0 then maxsize else 0
  }

  ghost predicate Valid(maxsize: int, c: Cache) {
    UniqueKeys(c.entries) && |c.entries| <= Capacity(maxsize)
  }

  lemma AppendUnique(entries: seq<CacheEntry>, e: CacheEntry)
    requires UniqueKeys(entries) && forall x :: x in entries ==> x.key != e.key
    ensures UniqueKeys(entries + [e])
  {
    var longer := entries + [e];
    forall i, j | 0 <= i < j < |longer| ensures longer[i].key != longer[j].key {
      assert longer[i] in entries;
    }
  }

  lemma GotKeepsValid(maxsize: int, ttl: real, c: Cache, key: Key, now: real)
    requires Valid(maxsize, c)
    ensures Valid(maxsize, Got(ttl, c, key, now))
  {
    WithoutFacts(c.entries, key);
    if Has(c.entries, key) {
      AppendUnique(Without(c.entries, key), Lookup(c.entries, key));
    }
  }

  lemma PutKeepsValid(maxsize: int, c: Cache, key: Key, value: Value, now: real)
    requires UniqueKeys(c.entries)
    ensures UniqueKeys(Put(maxsize, c, key, value, now).entries)
    ensures Valid(maxsize, c) ==> Valid(maxsize, Put(maxsize, c, key, value, now))
  {
    WithoutFacts(c.entries, key);
    AppendUnique(Without(c.entries, key), CacheEntry(key, value, now));
  }

  lemma StepKeepsValid(maxsize: int, ttl: real, c: Cache, op: CacheOp)
    requires Valid(maxsize, c)
    ensures Valid(maxsize, Step(maxsize, ttl, c, op))
  {
    match op
    case Get(key, now) => GotKeepsValid(maxsize, ttl, c, key, now);
    case Set(key, value, now) => PutKeepsValid(maxsize, c, key, value, now);
    case Clear =>
  }

  /** The cache never holds two entries of one key nor more entries than its capacity. */
  lemma {:induction false} RunKeepsValid(maxsize: int, ttl: real, ops: seq<CacheOp>)
    ensures Valid(maxsize, After(maxsize, ttl, ops))
  {
    if ops != [] {
      RunKeepsValid(maxsize, ttl, ops[..|ops| - 1]);
      StepKeepsValid(maxsize, ttl, After(maxsize, ttl, ops[..|ops| - 1]), ops[|ops| - 1]);
    }
  }

  // ---- inclusion

  /** `small` is `large` with some entries left out. */
  ghost predicate Included(small: seq<CacheEntry>, large: seq<CacheEntry>) {
    if large == [] then small == []
    else if small != [] && small[0] == large[0] then Included(small[1..], large[1..])
    else Included(small, large[1..])
  }

  lemma {:induction false} IncludedFacts(small: seq<CacheEntry>, large: seq<CacheEntry>)
    requires Included(small, large)
    ensures |small| <= |large|
    ensures forall e :: e in small ==> e in large
    decreases |large|
  {
    if large != [] {
      assert large == [large[0]] + large[1..];
      if small != [] && small[0] == large[0] {
        assert small == [small[0]] + small[1..];
        IncludedFacts(small[1..], large[1..]);
      } else {
        IncludedFacts(small, large[1..]);
      }
    }
  }

  lemma {:induction false} IncludedSkip(small: seq<CacheEntry>, large: seq<CacheEntry>, e: CacheEntry)
    requires Included(small, large)
    ensures Included(small, [e] + large)
    decreases |large|, 1
  {
    assert ([e] + large)[1..] == large;
    if small != [] && small[0] == e {
      IncludedTail(small, large);
    }
  }

  lemma {:induction false} IncludedTail(small: seq<CacheEntry>, large: seq<CacheEntry>)
    requires Included(small, large) && small != []
    ensures Included(small[1..], large)
    decreases |large|, 0
  {
    assert large == [large[0]] + large[1..];
    if small[0] != large[0] {
      IncludedTail(small, large[1..]);
    }
    IncludedSkip(small[1..], large[1..], large[0]);
  }

  lemma {:induction false} IncludedAppend(small: seq<CacheEntry>, large: seq<CacheEntry>, e: CacheEntry)
    requires Included(small, large)
    ensures Included(small, large + [e])
    ensures Included(small + [e], large + [e])
    decreases |large|
  {
    if large == [] {
      assert large + [e] == [e] && small + [e] == [e] && [e][1..] == [];
    } else {
      assert (large + [e])[1..] == large[1..] + [e];
      if small != [] && small[0] == large[0] {
        assert (small + [e])[1..] == small[1..] + [e];
        IncludedAppend(small[1..], large[1..], e);
      } else {
        IncludedAppend(small, large[1..], e);
        if small == [] && e == large[0] {
          assert (small + [e])[1..] == [];
          NothingIncluded(large[1..] + [e]);
        }
      }
    }
  }

  lemma {:induction false} NothingIncluded(large: seq<CacheEntry>)
    ensures Included([], large)
  {
    if large != [] {
      NothingIncluded(large[1..]);
    }
  }

  lemma {:induction false} IncludedWithout(small: seq<CacheEntry>, large: seq<CacheEntry>, key: Key)
    requires Included(small, large)
    ensures Included(Without(small, key), Without(large, key))
    decreases |large|
  {
    if large != [] {
      var head, rest := large[0], Without(large[1..], key);
      assert Without(large, key) == if head.key == key then rest else [head] + rest;
      if small != [] && small[0] == head {
        IncludedWithout(small[1..], large[1..], key);
        var smaller := Without(small[1..], key);
        assert Without(small, key) == if head.key == key then smaller else [head] + smaller;
        assert ([head] + smaller)[1..] == smaller && ([head] + rest)[1..] == rest;
      } else {
        IncludedWithout(small, large[1..], key);
        if head.key != key {
          IncludedSkip(Without(small, key), rest, head);
        }
      }
    }
  }

  /** The larger cache holds all the smaller one holds, in the same order, and exceeds it by at most the extra room. */
  ghost predicate Inclusion(m: int, n: int, small: Cache, large: Cache) {
    && Included(small.entries, large.entries)
    && |large.entries| - |small.entries| <= Capacity(n) - Capacity(m)
    && small.hits <= large.hits
    && small.hits + small.misses == large.hits + large.misses
  }

  /** Every hit of the smaller cache is a hit of the larger one, with the same value. */
  lemma SmallerHitsLess(m: int, n: int, ttl: real, small: Cache, large: Cache, key: Key, now: real)
    requires Valid(m, small) && Valid(n, large) && Inclusion(m, n, small, large)
    ensures Has(small.entries, key) ==>
              Has(large.entries, key) && Lookup(large.entries, key) == Lookup(small.entries, key)
    ensures GetResult(ttl, small, key, now).Some? ==>
              GetResult(ttl, large, key, now) == GetResult(ttl, small, key, now)
  {
    IncludedFacts(small.entries, large.entries);
    if Has(small.entries, key) {
      LookupIsUnique(large.entries, Lookup(small.entries, key));
    }
  }

  lemma GetKeepsInclusion(m: int, n: int, ttl: real, small: Cache, large: Cache, key: Key, now: real)
    requires Valid(m, small) && Valid(n, large) && Inclusion(m, n, small, large)
    ensures Inclusion(m, n, Got(ttl, small, key, now), Got(ttl, large, key, now))
  {
    SmallerHitsLess(m, n, ttl, small, large, key, now);
    WithoutFacts(small.entries, key);
    WithoutFacts(large.entries, key);
    IncludedWithout(small.entries, large.entries, key);
    if Has(large.entries, key) {
      IncludedAppend(Without(small.entries, key), Without(large.entries, key), Lookup(large.entries, key));
    }
  }

  lemma SetKeepsInclusion(m: int, n: int, small: Cache, large: Cache, key: Key, value: Value, now: real)
    requires m <= n && Valid(m, small) && Valid(n, large) && Inclusion(m, n, small, large)
    ensures Inclusion(m, n, Put(m, small, key, value, now), Put(n, large, key, value, now))
  {
    var e := CacheEntry(key, value, now);
    var s, l := Without(small.entries, key), Without(large.entries, key);
    WithoutFacts(small.entries, key);
    WithoutFacts(large.entries, key);
    IncludedFacts(small.entries, large.entries);
    assert Has(small.entries, key) ==> Has(large.entries, key) by {
      SmallerHitsLess(m, n, 0.0, small, large, key, now);
    }
    IncludedWithout(small.entries, large.entries, key);
    IncludedAppend(s, l, e);
    if (s + [e])[0] != (l + [e])[0] || |s + [e]| > m {
      IncludedTail(s + [e], l + [e]);
    }
    if (s + [e])[0] != (l + [e])[0] {
      IncludedTail(s + [e], (l + [e])[1..]);
    }
  }

  /**
   * Over any timed sequence of operations a smaller cache holds a part of what a larger one holds, with the same
   * values and in the same order, and never counts more hits.
   */
  lemma {:induction false} LargerCacheIncludesSmaller(m: int, n: int, ttl: real, ops: seq<CacheOp>)
    requires m <= n
    ensures Inclusion(m, n, After(m, ttl, ops), After(n, ttl, ops))
  {
    if ops != [] {
      var before := ops[..|ops| - 1];
      LargerCacheIncludesSmaller(m, n, ttl, before);
      RunKeepsValid(m, ttl, before);
      RunKeepsValid(n, ttl, before);
      match ops[|ops| - 1]
      case Get(key, now) => GetKeepsInclusion(m, n, ttl, After(m, ttl, before), After(n, ttl, before), key, now);
      case Set(key, value, now) =>
        SetKeepsInclusion(m, n, After(m, ttl, before), After(n, ttl, before), key, value, now);
      case Clear =>
    }
  }

  function HitRate(c: Cache): real {
    if c.hits + c.misses > 0 then c.hits as real / (c.hits + c.misses) as real else 0.0
  }

  /** More room never lowers the hit rate. */
  lemma HitRateGrowsWithCapacity(m: int, n: int, ttl: real, ops: seq<CacheOp>)
    requires m <= n
    ensures HitRate(After(m, ttl, ops)) <= HitRate(After(n, ttl, ops))
  {
    LargerCacheIncludesSmaller(m, n, ttl, ops);
    var small, large := After(m, ttl, ops), After(n, ttl, ops);
    if small.hits + small.misses > 0 {
      RatioGrows(small.hits as real, large.hits as real, (small.hits + small.misses) as real);
    }
  }

  lemma RatioGrows(a: real, b: real, total: real)
    requires a <= b && total > 0.0
    ensures a / total <= b / total
  {
    assert (b - a) / total >= 0.0;
    assert b / total == a / total + (b - a) / total;
  }

  // ---- what a hit returns

  /** The last entry set for the key since the last clear. */
  ghost function LastSet(ops: seq<CacheOp>, key: Key): (e: Option<CacheEntry>)
    ensures e.Some? ==> e.value.key == key
  {
    if ops == [] then None
    else
      match ops[|ops| - 1]
      case Clear => None
      case Set(k, value, now) =>
        if k == key then Some(CacheEntry(key, value, now)) else LastSet(ops[..|ops| - 1], key)
      case Get(_, _) => LastSet(ops[..|ops| - 1], key)
  }

  /** The cache never holds anything but the last entry set for a key. */
  lemma {:induction false} HoldsLastSets(maxsize: int, ttl: real, ops: seq<CacheOp>, e: CacheEntry)
    requires e in After(maxsize, ttl, ops).entries
    ensures LastSet(ops, e.key) == Some(e)
  {
    if ops != [] {
      var before := ops[..|ops| - 1];
      if e in After(maxsize, ttl, before).entries {
        HoldsLastSets(maxsize, ttl, before, e);
      }
    }
  }

  /** A hit returns the value of the last set of the key, made less than the time-to-live ago. */
  lemma HitsAreFresh(maxsize: int, ttl: real, ops: seq<CacheOp>, key: Key, now: real)
    ensures var r := GetResult(ttl, After(maxsize, ttl, ops), key, now);
            r.Some? ==> LastSet(ops, key).Some? && LastSet(ops, key).value.value == r.value
                        && now - LastSet(ops, key).value.time < ttl
  {
    var c := After(maxsize, ttl, ops);
    if Has(c.entries, key) {
      HoldsLastSets(maxsize, ttl, ops, Lookup(c.entries, key));
    }
  }

  ghost function Time(op: CacheOp): real
    requires !op.Clear?
  {
    op.now
  }

  /** Times do not decrease, up to `now`. */
  ghost predicate Monotone(ops: seq<CacheOp>, now: real) {
    && (forall i :: 0 <= i < |ops| && !ops[i].Clear? ==> Time(ops[i]) <= now)
    && (forall i, j :: 0 <= i < j < |ops| && !ops[i].Clear? && !ops[j].Clear? ==> Time(ops[i]) <= Time(ops[j]))
  }

  /** The keys set since the last clear. */
  ghost function SetKeys(ops: seq<CacheOp>): set<Key> {
    if ops == [] then {}
    else
      match ops[|ops| - 1]
      case Clear => {}
      case Set(key, _, _) => SetKeys(ops[..|ops| - 1]) + {key}
      case Get(_, _) => SetKeys(ops[..|ops| - 1])
  }

  lemma {:induction false} EntriesAreSetKeys(maxsize: int, ttl: real, ops: seq<CacheOp>)
    ensures forall e :: e in After(maxsize, ttl, ops).entries ==> e.key in SetKeys(ops)
  {
    if ops != [] {
      EntriesAreSetKeys(maxsize, ttl, ops[..|ops| - 1]);
    }
  }

  lemma {:induction false} AtMostTheKeys(entries: seq<CacheEntry>, keys: set<Key>)
    requires UniqueKeys(entries) && forall e :: e in entries ==> e.key in keys
    ensures |entries| <= |keys|
  {
    if entries != [] {
      var e, tail := entries[0], entries[1..];
      assert forall i :: 0 <= i < |tail| ==> tail[i] == entries[i + 1];
      AtMostTheKeys(tail, keys - {e.key});
    }
  }

  /** With room for every key set, setting a key evicts nothing. */
  lemma SetElsewhereKeeps(maxsize: int, c: Cache, e: CacheEntry, key: Key, value: Value, now: real, keys: set<Key>)
    requires UniqueKeys(c.entries) && (forall x :: x in c.entries ==> x.key in keys) && |keys + {key}| <= maxsize
    requires e in c.entries && key != e.key
    ensures e in Put(maxsize, c, key, value, now).entries
  {
    var rest := Without(c.entries, key);
    WithoutFacts(c.entries, key);
    AppendUnique(rest, CacheEntry(key, value, now));
    AtMostTheKeys(rest + [CacheEntry(key, value, now)], keys + {key});
    assert e in rest;
  }

  lemma SetHereKeeps(maxsize: int, c: Cache, key: Key, value: Value, now: real)
    requires maxsize >= 1
    ensures CacheEntry(key, value, now) in Put(maxsize, c, key, value, now).entries
  {
    var entries := Without(c.entries, key) + [CacheEntry(key, value, now)];
    assert entries[|entries| - 1] == CacheEntry(key, value, now);
    assert |entries| > 1 ==> entries[1..][|entries| - 2] == CacheEntry(key, value, now);
  }

  lemma {:induction false} RoomyCacheKeeps(maxsize: int, ttl: real, ops: seq<CacheOp>, key: Key, now: real)
    requires |SetKeys(ops)| <= maxsize && Monotone(ops, now)
    requires LastSet(ops, key).Some? && now - LastSet(ops, key).value.time < ttl
    ensures LastSet(ops, key).value in After(maxsize, ttl, ops).entries
  {
    var before, op := ops[..|ops| - 1], ops[|ops| - 1];
    var c := After(maxsize, ttl, before);
    if op.Set? && op.key == key {
      assert key in SetKeys(ops);
      SetHereKeeps(maxsize, c, key, op.value, op.now);
    } else {
      SubsetCardinality(SetKeys(before), SetKeys(ops));
      RoomyCacheKeeps(maxsize, ttl, before, key, now);
      RunKeepsValid(maxsize, ttl, before);
      var e := LastSet(before, key).value;
      if op.Set? {
        EntriesAreSetKeys(maxsize, ttl, before);
        SetElsewhereKeeps(maxsize, c, e, op.key, op.value, op.now, SetKeys(before));
      } else {
        assert Time(op) <= now;
        LookupIsUnique(c.entries, e);
      }
    }
  }

  /**
   * With room for the keys set since the last clear, a get hits exactly when the key was last set less than the
   * time-to-live ago.
   */
  lemma RoomyCacheHitsExactly(maxsize: int, ttl: real, ops: seq<CacheOp>, key: Key, now: real)
    requires |SetKeys(ops)| <= maxsize && Monotone(ops, now)
    ensures GetResult(ttl, After(maxsize, ttl, ops), key, now).Some? <==>
            LastSet(ops, key).Some? && now - LastSet(ops, key).value.time < ttl
  {
    HitsAreFresh(maxsize, ttl, ops, key, now);
    if LastSet(ops, key).Some? && now - LastSet(ops, key).value.time < ttl {
      RoomyCacheKeeps(maxsize, ttl, ops, key, now);
      RunKeepsValid(maxsize, ttl, ops);
      LookupIsUnique(After(maxsize, ttl, ops).entries, LastSet(ops, key).value);
    }
  }

  // ---- what a get counts and drops

  /** The operation is a get that returns a value. */
  ghost predicate Hits(ttl: real, c: Cache, op: CacheOp) {
    op.Get? && GetResult(ttl, c, op.key, op.now).Some?
  }

  /** The gets since the last clear, all of them or those that returned a value. */
  ghost function GetsSinceClear(maxsize: int, ttl: real, ops: seq<CacheOp>, hitsOnly: bool): nat {
    if ops == [] then 0
    else
      var n := |ops| - 1;
      match ops[n]
      case Clear => 0
      case Set(_, _, _) => GetsSinceClear(maxsize, ttl, ops[..n], hitsOnly)
      case Get(_, _) =>
        GetsSinceClear(maxsize, ttl, ops[..n], hitsOnly)
        + if !hitsOnly || Hits(ttl, After(maxsize, ttl, ops[..n]), ops[n]) then 1 else 0
  }

  lemma DivideBack(a: real, total: real)
    requires total > 0.0
    ensures a / total * total == a
  {}

  /** The hit rate is the share of the hits in all gets counted. */
  lemma HitRateIsShare(c: Cache)
    ensures HitRate(c) * (c.hits + c.misses) as real == c.hits as real
  {
    if c.hits + c.misses > 0 {
      DivideBack(c.hits as real, (c.hits + c.misses) as real);
    }
  }

  /** The counters tell how many gets there were since the last clear, and how many of them returned a value. */
  lemma {:induction false} CountersCountGets(maxsize: int, ttl: real, ops: seq<CacheOp>)
    ensures var c := After(maxsize, ttl, ops);
            && c.hits == GetsSinceClear(maxsize, ttl, ops, true)
            && c.hits + c.misses == GetsSinceClear(maxsize, ttl, ops, false)
  {
    if ops != [] {
      CountersCountGets(maxsize, ttl, ops[..|ops| - 1]);
    }
  }

  /**
   * After a get the key is in the cache exactly if it was there and younger than the time-to-live, and then with the
   * entry it had; an expired entry is gone. All other entries stay.
   */
  lemma GetDropsExpired(maxsize: int, ttl: real, ops: seq<CacheOp>, key: Key, now: real, e: CacheEntry)
    ensures var c, c' := After(maxsize, ttl, ops), After(maxsize, ttl, ops + [Get(key, now)]);
            e in c'.entries <==> e in c.entries && (e.key == key ==> now - e.time < ttl)
  {
    var c, longer := After(maxsize, ttl, ops), ops + [Get(key, now)];
    assert longer[..|ops|] == ops;
    RunKeepsValid(maxsize, ttl, ops);
    if e in c.entries {
      LookupIsUnique(c.entries, e);
    }
    if Has(c.entries, key) {
      LookupIsUnique(c.entries, Lookup(c.entries, key));
    }
  }

  // ---- least recently used

  /** The number of the last operation since the last clear that set the key or returned its value, or -1. */
  ghost function LastUse(maxsize: int, ttl: real, ops: seq<CacheOp>, key: Key): int {
    if ops == [] || ops[|ops| - 1].Clear? then -1
    else
      var n := |ops| - 1;
      if ops[n].key == key && (ops[n].Set? || Hits(ttl, After(maxsize, ttl, ops[..n]), ops[n])) then n
      else LastUse(maxsize, ttl, ops[..n], key)
  }

  ghost function UseOf(maxsize: int, ttl: real, ops: seq<CacheOp>): Key -> int {
    key => LastUse(maxsize, ttl, ops, key)
  }

  lemma {:induction false} UsedBefore(maxsize: int, ttl: real, ops: seq<CacheOp>, key: Key)
    ensures LastUse(maxsize, ttl, ops, key) < |ops|
  {
    if ops != [] {
      UsedBefore(maxsize, ttl, ops[..|ops| - 1], key);
    }
  }

  ghost predicate OrderedBy(entries: seq<CacheEntry>, use: Key -> int) {
    forall i, j :: 0 <= i < j < |entries| ==> use(entries[i].key) < use(entries[j].key)
  }

  lemma {:induction false} WithoutKeepsOrder(entries: seq<CacheEntry>, key: Key, use: Key -> int)
    requires OrderedBy(entries, use)
    ensures OrderedBy(Without(entries, key), use)
  {
    if entries != [] {
      var tail, rest := entries[1..], Without(entries[1..], key);
      assert forall i :: 0 <= i < |tail| ==> tail[i] == entries[i + 1];
      WithoutKeepsOrder(tail, key, use);
      forall j | 0 <= j < |rest| ensures use(entries[0].key) < use(rest[j].key) {
        assert rest[j] in rest;
        assert rest[j] in tail;
      }
    }
  }

  lemma AppendKeepsOrder(entries: seq<CacheEntry>, e: CacheEntry, use: Key -> int)
    requires OrderedBy(entries, use) && forall x :: x in entries ==> use(x.key) < use(e.key)
    ensures OrderedBy(entries + [e], use)
  {
    assert forall i :: 0 <= i < |entries| ==> entries[i] in entries;
  }

  lemma SameOrder(entries: seq<CacheEntry>, before: Key -> int, after: Key -> int)
    requires OrderedBy(entries, before) && forall x :: x in entries ==> after(x.key) == before(x.key)
    ensures OrderedBy(entries, after)
  {
    assert forall i :: 0 <= i < |entries| ==> entries[i] in entries;
  }

  /** The entries that stand before the one just used are in the order of their last use. */
  lemma OthersKeepOrder(maxsize: int, ttl: real, ops: seq<CacheOp>)
    requires ops != [] && !ops[|ops| - 1].Clear?
    requires var before := ops[..|ops| - 1];
             OrderedBy(After(maxsize, ttl, before).entries, UseOf(maxsize, ttl, before))
    ensures var n := |ops| - 1; var rest := Without(After(maxsize, ttl, ops[..n]).entries, ops[n].key);
            && OrderedBy(rest, UseOf(maxsize, ttl, ops))
            && forall x :: x in rest ==> UseOf(maxsize, ttl, ops)(x.key) < n
  {
    var n := |ops| - 1;
    var c, before, after := After(maxsize, ttl, ops[..n]), UseOf(maxsize, ttl, ops[..n]), UseOf(maxsize, ttl, ops);
    WithoutKeepsOrder(c.entries, ops[n].key, before);
    SameOrder(Without(c.entries, ops[n].key), before, after);
    forall x | x in Without(c.entries, ops[n].key) ensures after(x.key) < n {
      UsedBefore(maxsize, ttl, ops[..n], x.key);
    }
  }

  /** The cache lists its entries from the least to the most recently used one. */
  lemma {:induction false} ListsByLastUse(maxsize: int, ttl: real, ops: seq<CacheOp>)
    ensures OrderedBy(After(maxsize, ttl, ops).entries, UseOf(maxsize, ttl, ops))
  {
    if ops != [] && !ops[|ops| - 1].Clear? {
      var n := |ops| - 1;
      var c, op, use := After(maxsize, ttl, ops[..n]), ops[n], UseOf(maxsize, ttl, ops);
      ListsByLastUse(maxsize, ttl, ops[..n]);
      OthersKeepOrder(maxsize, ttl, ops);
      var rest := Without(c.entries, op.key);
      if op.Set? {
        AppendKeepsOrder(rest, CacheEntry(op.key, op.value, op.now), use);
      } else if Hits(ttl, c, op) {
        AppendKeepsOrder(rest, Lookup(c.entries, op.key), use);
      }
    }
  }

  /** The entry was used before all others of the cache. */
  ghost predicate LeastRecent(entries: seq<CacheEntry>, e: CacheEntry, use: Key -> int) {
    e in entries && forall x :: x in entries && x != e ==> use(e.key) < use(x.key)
  }

  lemma HeadIsLeastRecent(entries: seq<CacheEntry>, e: CacheEntry, use: Key -> int)
    requires OrderedBy(entries, use) && entries != []
    ensures LeastRecent(entries, e, use) <==> e == entries[0]
  {
    assert entries[0] in entries;
    forall x | x in entries && x != entries[0] ensures use(entries[0].key) < use(x.key) {
      var i :| 0 <= i < |entries| && entries[i] == x;
    }
  }

  /**
   * A set evicts exactly when the cache is full and the key is new, and then exactly the least recently used entry;
   * all other entries of other keys stay, and the new one is there.
   */
  lemma SetEvictsLeastRecent(maxsize: int, ttl: real, ops: seq<CacheOp>, key: Key, value: Value, now: real,
                             e: CacheEntry)
    requires maxsize >= 1 && e in After(maxsize, ttl, ops).entries && e.key != key
    ensures var c, c' := After(maxsize, ttl, ops), After(maxsize, ttl, ops + [Set(key, value, now)]);
            && CacheEntry(key, value, now) in c'.entries
            && (e !in c'.entries <==>
                  |c.entries| == maxsize && !Has(c.entries, key)
                  && LeastRecent(c.entries, e, UseOf(maxsize, ttl, ops)))
  {
    var c, longer := After(maxsize, ttl, ops), ops + [Set(key, value, now)];
    assert longer[..|ops|] == ops;
    RunKeepsValid(maxsize, ttl, ops);
    ListsByLastUse(maxsize, ttl, ops);
    HeadIsLeastRecent(c.entries, e, UseOf(maxsize, ttl, ops));
    SetHereKeeps(maxsize, c, key, value, now);
    PutDropsHead(maxsize, c, key, value, now, e);
  }

  lemma PutDropsHead(maxsize: int, c: Cache, key: Key, value: Value, now: real, e: CacheEntry)
    requires maxsize >= 1 && Valid(maxsize, c) && e in c.entries && e.key != key
    ensures e !in Put(maxsize, c, key, value, now).entries <==>
            |c.entries| == maxsize && !Has(c.entries, key) && e == c.entries[0]
  {
    var rest, added := Without(c.entries, key), CacheEntry(key, value, now);
    WithoutFacts(c.entries, key);
    assert e in rest;
    if Has(c.entries, key) {
      assert e in rest + [added];
    } else {
      NothingToRemove(c.entries, key);
      var all := c.entries + [added];
      assert all[1..] == c.entries[1..] + [added];
      var i :| 0 <= i < |c.entries| && c.entries[i] == e;
      assert i > 0 ==> c.entries[1..][i - 1] == e;
    }
  }

  // ---- the cache object

  class TTLCache {
    const maxsize: int
    const ttl: real
    var cache: seq<CacheEntry>
    var hits: nat
    var misses: nat

    ghost function State(): Cache
      reads this
    {
      Cache(cache, hits, misses)
    }

    constructor (maxsize: int, ttl: real)
      ensures this.maxsize == maxsize && this.ttl == ttl && State() == Cache([], 0, 0)
    {
      this.maxsize, this.ttl := maxsize, ttl;
      cache, hits, misses := [], 0, 0;
    }

    method Get(key: Key, now: real) returns (value: Option<Value>)
      requires UniqueKeys(cache)
      modifies this
      ensures value == GetResult(ttl, old(State()), key, now)
      ensures State() == Step(maxsize, ttl, old(State()), CacheOp.Get(key, now)) && UniqueKeys(cache)
    {
      WithoutFacts(cache, key);
      if Has(cache, key) {
        var entry := Lookup(cache, key);
        if now - entry.time < ttl {
          AppendUnique(Without(cache, key), entry);
          cache := Without(cache, key) + [entry];
          hits := hits + 1;
          return Some(entry.value);
        }
        cache := Without(cache, key);
      }
      NothingToRemove(cache, key);
      misses := misses + 1;
      return None;
    }

    method Set(key: Key, value: Value, now: real)
      requires UniqueKeys(cache)
      modifies this`cache
      ensures State() == Step(maxsize, ttl, old(State()), CacheOp.Set(key, value, now)) && UniqueKeys(cache)
    {
      PutKeepsValid(maxsize, State(), key, value, now);
      cache := Without(cache, key) + [CacheEntry(key, value, now)];
      if |cache| > maxsize {
        cache := cache[1..];
      }
    }

    method Clear()
      modifies this
      ensures State() == Step(maxsize, ttl, old(State()), CacheOp.Clear)
    {
      cache, hits, misses := [], 0, 0;
    }
  }

  lemma {:induction false} NothingToRemove(entries: seq<CacheEntry>, key: Key)
    requires !Has(entries, key)
    ensures Without(entries, key) == entries
  {
    if entries != [] {
      assert !Has(entries[1..], key) by {
        assert forall i :: 0 <= i < |entries[1..]| ==> entries[1..][i] == entries[i + 1];
      }
      NothingToRemove(entries[1..], key);
    }
  }
}
