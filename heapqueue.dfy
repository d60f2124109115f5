/** The priority queue of A* (`heapq`, projekt.py:265, 267 and 287). Only its contract
    is modelled: `heappush` adds an entry and `heappop` removes a least entry in Python's
    tuple order. The heap's internal array layout is not modelled; `PopByContents`
    shows that what a pop yields depends on the entries alone. */
module HeapQueue {
  import opened Grid

  /** A queue entry `(F, H, (x, y))`: estimated total cost, heuristic part, cell. */
  datatype Entry = Entry(f: int, hv: int, pos: Pos)

  /** Python's tuple order on entries: by F, then H, then x, then y. */
  predicate NotAfter(a: Entry, b: Entry)
  {
    || a.f < b.f
    || (a.f == b.f && a.hv < b.hv)
    || (a.f == b.f && a.hv == b.hv && a.pos.x < b.pos.x)
    || (a.f == b.f && a.hv == b.hv && a.pos.x == b.pos.x && a.pos.y <= b.pos.y)
  }

  /** The order is total and antisymmetric: a least entry is unique. */
  lemma NotAfterTotal(a: Entry, b: Entry)
    ensures NotAfter(a, b) || NotAfter(b, a)
    ensures NotAfter(a, b) && NotAfter(b, a) ==> a == b
  {
  }

  /** The position of a least entry. */
  function MinIndex(heap: seq<Entry>): (i: nat)
    requires |heap| > 0
    ensures i < |heap| && forall j :: 0 <= j < |heap| ==> NotAfter(heap[i], heap[j])
  {
    if |heap| == 1 then 0
    else
      var k := MinIndex(heap[..|heap| - 1]);
      if NotAfter(heap[k], heap[|heap| - 1]) then k else |heap| - 1
  }

  /** The queue without the entry at `i`. */
  function Remove(heap: seq<Entry>, i: nat): (r: seq<Entry>)
    requires i < |heap|
    ensures multiset(r) == multiset(heap) - multiset{heap[i]}
  {
    assert heap == heap[..i] + [heap[i]] + heap[i + 1..];
    heap[..i] + heap[i + 1..]
  }

  /** `heappop`: a least entry, and the queue without it. */
  function Pop(heap: seq<Entry>): (r: (Entry, seq<Entry>))
    requires |heap| > 0
  {
    var i := MinIndex(heap);
    (heap[i], Remove(heap, i))
  }

  /** What `heappop` returns: an entry of the queue no greater than any other, and the
      other entries. */
  lemma PopLeast(heap: seq<Entry>)
    requires |heap| > 0
    ensures Pop(heap).0 in heap && forall e :: e in heap ==> NotAfter(Pop(heap).0, e)
    ensures multiset(Pop(heap).1) + multiset{Pop(heap).0} == multiset(heap)
  {
  }

  /** Two queues holding the same entries, however laid out, pop the same entry and
      keep the same rest. */
  lemma PopByContents(a: seq<Entry>, b: seq<Entry>)
    requires |a| > 0 && multiset(a) == multiset(b)
    ensures |b| > 0 && Pop(a).0 == Pop(b).0 && multiset(Pop(a).1) == multiset(Pop(b).1)
  {
    assert a[0] in multiset(b);
    var ea, eb := a[MinIndex(a)], b[MinIndex(b)];
    assert ea in multiset(b) && eb in multiset(a);
    NotAfterTotal(ea, eb);
  }

  /** The number of entries whose cell is in `done`. */
  function Stale(heap: seq<Entry>, done: set<Pos>): nat
  {
    if |heap| == 0 then 0
    else Stale(heap[..|heap| - 1], done) + (if heap[|heap| - 1].pos in done then 1 else 0)
  }

  lemma {:induction false} StaleAppend(a: seq<Entry>, b: seq<Entry>, done: set<Pos>)
    ensures Stale(a + b, done) == Stale(a, done) + Stale(b, done)
    decreases |b|
  {
    if |b| > 0 {
      var b' := b[..|b| - 1];
      assert (a + b)[..|a + b| - 1] == a + b';
      StaleAppend(a, b', done);
    } else {
      assert a + b == a;
    }
  }

  /** Taking out an entry whose cell is in `done` leaves one stale entry fewer. */
  lemma StaleRemove(heap: seq<Entry>, i: nat, done: set<Pos>)
    requires i < |heap|
    ensures Stale(heap, done) == Stale(Remove(heap, i), done) + (if heap[i].pos in done then 1 else 0)
  {
    assert heap == heap[..i] + [heap[i]] + heap[i + 1..];
    StaleAppend(heap[..i] + [heap[i]], heap[i + 1..], done);
    StaleAppend(heap[..i], [heap[i]], done);
    StaleAppend(heap[..i], heap[i + 1..], done);
    assert [heap[i]][..0] == [];
  }

  /** Entries for cells outside `done` are not stale. */
  lemma {:induction false} StaleNone(heap: seq<Entry>, done: set<Pos>)
    requires forall e :: e in heap ==> e.pos !in done
    ensures Stale(heap, done) == 0
    decreases |heap|
  {
    if |heap| > 0 {
      StaleNone(heap[..|heap| - 1], done);
    }
  }
}
