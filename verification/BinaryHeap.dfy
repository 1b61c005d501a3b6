/** Queue entries, their order, and the binary heap that `heapq` keeps in a list. */
module BinaryHeaps {
  import Graphs

  type JobId = Graphs.JobId

  datatype QueueEntry = QueueEntry(priority: int, scheduledTime: real, insertionOrder: nat, jobId: JobId)

  /** Priority first, then scheduled time, then insertion; the job itself does not take part. */
  predicate Less(a: QueueEntry, b: QueueEntry) {
    || a.priority < b.priority
    || (a.priority == b.priority && (
          || a.scheduledTime < b.scheduledTime
          || (a.scheduledTime == b.scheduledTime && a.insertionOrder < b.insertionOrder)))
  }

  function Parent(i: nat): (p: nat)
    requires i > 0
    ensures i == 2 * p + 1 || i == 2 * p + 2
  {
    (i - 1) / 2
  }

  ghost predicate Ordered(h: seq<QueueEntry>, i: nat)
    requires 0 < i < |h|
  {
    !Less(h[i], h[Parent(i)])
  }

  ghost predicate IsHeap(h: seq<QueueEntry>) {
    forall i {:trigger Ordered(h, i)} :: 0 < i < |h| ==> Ordered(h, i)
  }

  lemma {:induction false} RootIsLeast(h: seq<QueueEntry>, i: nat)
    requires IsHeap(h) && i < |h|
    ensures !Less(h[i], h[0])
  {
    if i > 0 {
      assert Ordered(h, i);
      RootIsLeast(h, Parent(i));
    }
  }

  /** A heap but for the entry at `hole`, which may be smaller than its parent. */
  ghost predicate HeapAbove(h: seq<QueueEntry>, hole: nat) {
    && (forall i {:trigger Ordered(h, i)} :: 0 < i < |h| && i != hole ==> Ordered(h, i))
    && (forall i {:trigger Parent(i)} :: 0 < i < |h| && 0 < hole < |h| && Parent(i) == hole ==>
          !Less(h[i], h[Parent(hole)]))
  }

  /** A heap but for the entry at `hole`, which is not compared with its parent or its children. */
  ghost predicate HeapAround(h: seq<QueueEntry>, hole: nat) {
    && (forall i {:trigger Ordered(h, i)} :: 0 < i < |h| && i != hole && Parent(i) != hole ==> Ordered(h, i))
    && (forall i {:trigger Parent(i)} :: 0 < i < |h| && 0 < hole < |h| && Parent(i) == hole ==>
          !Less(h[i], h[Parent(hole)]))
  }

  /** The child that moves up: the left one, unless the right one exists and the left is not smaller. */
  function SmallerChild(h: seq<QueueEntry>, pos: nat): (child: nat)
    requires 2 * pos + 1 < |h|
    ensures 0 < child < |h| && Parent(child) == pos
    ensures forall i {:trigger Parent(i)} :: 0 < i < |h| && Parent(i) == pos ==> !Less(h[i], h[child])
  {
    if 2 * pos + 2 < |h| && !Less(h[2 * pos + 1], h[2 * pos + 2]) then 2 * pos + 2 else 2 * pos + 1
  }

  lemma LeafHole(h: seq<QueueEntry>, pos: nat)
    requires HeapAround(h, pos) && 2 * pos + 1 >= |h|
    ensures HeapAbove(h, pos)
  {
    forall i {:trigger Ordered(h, i)} | 0 < i < |h| && i != pos ensures Ordered(h, i) {
      assert Parent(i) != pos;
    }
  }

  ghost function Swap(h: seq<QueueEntry>, i: nat, j: nat): (s: seq<QueueEntry>)
    requires i < |h| && j < |h| && i != j
    ensures |s| == |h| && multiset(s) == multiset(h)
  {
    h[i := h[j]][j := h[i]]
  }

  lemma MoveUp(h: seq<QueueEntry>, pos: nat)
    requires 0 < pos < |h| && HeapAbove(h, pos) && Less(h[pos], h[Parent(pos)])
    ensures HeapAbove(Swap(h, pos, Parent(pos)), Parent(pos))
  {
    var p := Parent(pos);
    var g := Swap(h, pos, p);
    forall i {:trigger Ordered(g, i)} | 0 < i < |g| && i != p ensures Ordered(g, i) {
      if i != pos {
        assert Ordered(h, i);
      }
    }
    forall i {:trigger Parent(i)} | 0 < i < |g| && 0 < p < |g| && Parent(i) == p ensures !Less(g[i], g[Parent(p)]) {
      assert Ordered(h, p);
      if i != pos {
        assert Ordered(h, i);
      }
    }
  }

  lemma MoveDown(h: seq<QueueEntry>, pos: nat, child: nat)
    requires 2 * pos + 1 < |h| && HeapAround(h, pos)
    requires child == SmallerChild(h, pos)
    ensures HeapAround(Swap(h, pos, child), child)
  {
    var g := Swap(h, pos, child);
    forall i {:trigger Ordered(g, i)} | 0 < i < |g| && i != child && Parent(i) != child ensures Ordered(g, i) {
      if i != pos && Parent(i) != pos {
        assert Ordered(h, i);
      }
    }
    forall i {:trigger Parent(i)} | 0 < i < |g| && Parent(i) == child ensures !Less(g[i], g[pos]) {
      assert Ordered(h, i);
    }
  }

  /** `_siftdown` of heapq: moves the entry at `start` towards the root until its parent is no larger. */
  method SiftDown(heap: seq<QueueEntry>, start: nat) returns (h: seq<QueueEntry>)
    requires start < |heap| && HeapAbove(heap, start)
    ensures IsHeap(h) && multiset(h) == multiset(heap)
  {
    h := heap;
    var pos, newItem := start, heap[start];
    ghost var g := h;
    while pos > 0
      invariant 0 <= pos < |h| == |heap| && g == h[pos := newItem]
      invariant HeapAbove(g, pos) && multiset(g) == multiset(heap)
    {
      var parent := h[Parent(pos)];
      if !Less(newItem, parent) {
        break;
      }
      MoveUp(g, pos);
      g := Swap(g, pos, Parent(pos));
      h := h[pos := parent];
      pos := Parent(pos);
    }
    h := h[pos := newItem];
  }

  /** `_siftup` of heapq: moves the smaller children up to a leaf, puts the root's entry there and sifts it down. */
  method SiftUp(heap: seq<QueueEntry>) returns (h: seq<QueueEntry>)
    requires heap != [] && HeapAround(heap, 0)
    ensures IsHeap(h) && multiset(h) == multiset(heap)
  {
    h := heap;
    var pos, newItem, child := 0, heap[0], 1;
    ghost var g := h;
    while child < |h|
      invariant 0 <= pos < |h| == |heap| && child == 2 * pos + 1
      invariant g == h[pos := newItem]
      invariant HeapAround(g, pos) && multiset(g) == multiset(heap)
      decreases |h| - pos
    {
      var right := child + 1;
      if right < |h| && !Less(h[child], h[right]) {
        child := right;
      }
      assert child == SmallerChild(h, pos) == SmallerChild(g, pos);
      MoveDown(g, pos, child);
      g := Swap(g, pos, child);
      h := h[pos := h[child]];
      pos := child;
      child := 2 * pos + 1;
    }
    h := h[pos := newItem];
    LeafHole(h, pos);
    h := SiftDown(h, pos);
  }

  /** `heapq.heappush`. */
  method HeapPush(heap: seq<QueueEntry>, entry: QueueEntry) returns (h: seq<QueueEntry>)
    requires IsHeap(heap)
    ensures IsHeap(h) && multiset(h) == multiset(heap) + multiset{entry}
  {
    h := heap + [entry];
    forall i {:trigger Ordered(h, i)} | 0 < i < |heap| ensures Ordered(h, i) {
      assert Ordered(heap, i);
    }
    h := SiftDown(h, |heap|);
  }

  /** `heapq.heappop`: takes out a least entry. */
  method HeapPop(heap: seq<QueueEntry>) returns (least: QueueEntry, h: seq<QueueEntry>)
    requires IsHeap(heap) && heap != []
    ensures IsHeap(h) && multiset(heap) == multiset(h) + multiset{least}
    ensures forall e :: e in heap ==> !Less(e, least)
  {
    var last := heap[|heap| - 1];
    h := heap[..|heap| - 1];
    least := last;
    assert heap == h + [last];
    forall i | 0 <= i < |heap| ensures !Less(heap[i], heap[0]) {
      RootIsLeast(heap, i);
    }
    if h != [] {
      least := h[0];
      var tail := h[1..];
      assert h == [least] + tail && h[0 := last] == [last] + tail;
      h := h[0 := last];
      forall i {:trigger Ordered(h, i)} | 0 < i < |h| && Parent(i) != 0 ensures Ordered(h, i) {
        assert Ordered(heap, i);
      }
      h := SiftUp(h);
    }
  }
}
