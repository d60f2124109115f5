/** A* over the labyrinth (`A_star`, projekt.py:255-316). The queue holds entries
    `(F, H, cell)` with `H` the squared Euclidean distance to the exit and `F = H + G`;
    `visited` holds `G`, the number of steps of the walk that discovered the cell.
    A cell may be queued several times before it is taken off the queue, and every pop
    is counted, so the visit count can exceed the number of cells marked 5. */
module AStar {
  import opened Grid
  import opened Paths
  import opened Trace
  import opened Scratch
  import opened HeapQueue

  /** `open_closed`: 1 for the expanded cells, -1 for the others. */
  ghost predicate Expanded(oc: seq<seq<int>>, w: nat, h: nat, popped: set<Pos>)
    requires IsGrid(oc, w, h)
  {
    forall q :: InGrid(w, h, q) ==> At(oc, q) == if q in popped then 1 else -1
  }

  /** A move the expansion takes: into the table, still 0 on the scratch table and
      never expanded. */
  predicate Admits(out: seq<seq<int>>, oc: seq<seq<int>>, w: nat, h: nat, m: Pos)
    requires IsGrid(out, w, h) && IsGrid(oc, w, h)
  {
    0 <= m.x < w && 0 <= m.y < h && At(out, m) == EMPTY && At(oc, m) == -1
  }

  /** The moves among the first `n` of `ms` that the expansion takes, in order. */
  function Admitted(out: seq<seq<int>>, oc: seq<seq<int>>, w: nat, h: nat, ms: seq<Pos>, n: nat): (r: seq<Pos>)
    requires IsGrid(out, w, h) && IsGrid(oc, w, h) && n <= |ms|
    ensures forall i :: 0 <= i < |r| ==> r[i] in ms && Admits(out, oc, w, h, r[i])
    ensures forall i :: 0 <= i < n && Admits(out, oc, w, h, ms[i]) ==> ms[i] in r
  {
    if n == 0 then []
    else Admitted(out, oc, w, h, ms, n - 1) + (if Admits(out, oc, w, h, ms[n - 1]) then [ms[n - 1]] else [])
  }

  /** The entries `(H + g, H, m)` pushed for the cells `cells`. */
  function EntriesFor(hv: seq<seq<int>>, w: nat, h: nat, cells: seq<Pos>, g: int): (r: seq<Entry>)
    requires IsGrid(hv, w, h) && forall c :: c in cells ==> InGrid(w, h, c)
    ensures |r| == |cells|
    ensures forall i :: 0 <= i < |r| ==> r[i].pos == cells[i]
  {
    if |cells| == 0 then []
    else
      var m := cells[|cells| - 1];
      assert m in cells && InGrid(w, h, m);
      EntriesFor(hv, w, h, cells[..|cells| - 1], g) + [Entry(At(hv, m) + g, At(hv, m), m)]
  }

  lemma EntriesSnoc(hv: seq<seq<int>>, w: nat, h: nat, cells: seq<Pos>, m: Pos, g: int)
    requires IsGrid(hv, w, h) && InGrid(w, h, m) && forall c :: c in cells ==> InGrid(w, h, c)
    ensures EntriesFor(hv, w, h, cells + [m], g) == EntriesFor(hv, w, h, cells, g) + [Entry(At(hv, m) + g, At(hv, m), m)]
  {
    assert (cells + [m])[..|cells|] == cells;
  }

  /** One more move: admitted or not. */
  lemma AdmittedSnoc(out: seq<seq<int>>, oc: seq<seq<int>>, w: nat, h: nat, ms: seq<Pos>, n: nat)
    requires IsGrid(out, w, h) && IsGrid(oc, w, h) && n < |ms|
    ensures Admits(out, oc, w, h, ms[n]) ==> Admitted(out, oc, w, h, ms, n + 1) == Admitted(out, oc, w, h, ms, n) + [ms[n]]
    ensures !Admits(out, oc, w, h, ms[n]) ==> Admitted(out, oc, w, h, ms, n + 1) == Admitted(out, oc, w, h, ms, n)
  {
    assert Admitted(out, oc, w, h, ms, n) + [] == Admitted(out, oc, w, h, ms, n);
  }

  /** After the first `k` moves, `heap` holds `heap0` followed by the entries for the
      moves admitted so far. */
  ghost predicate Pushed(out: seq<seq<int>>, oc: seq<seq<int>>, hv: seq<seq<int>>, w: nat, h: nat,
                         heap0: seq<Entry>, moves: seq<Pos>, k: nat, nG: int, heap: seq<Entry>)
    requires IsGrid(out, w, h) && IsGrid(oc, w, h) && IsGrid(hv, w, h) && k <= |moves|
  {
    heap == heap0 + EntriesFor(hv, w, h, Admitted(out, oc, w, h, moves, k), nG)
  }

  /** The move loop of one expansion: every admitted neighbour of `p` is pushed with
      `G = nG` and gets `visited = nG`. */
  method Expand(out: seq<seq<int>>, oc: seq<seq<int>>, v0: seq<seq<int>>, hv: seq<seq<int>>, w: nat, h: nat,
                heap0: seq<Entry>, p: Pos, nG: int)
    returns (v: seq<seq<int>>, heap: seq<Entry>)
    requires IsGrid(out, w, h) && IsGrid(oc, w, h) && IsGrid(v0, w, h) && IsGrid(hv, w, h)
    ensures IsGrid(v, w, h)
    ensures heap == heap0 + EntriesFor(hv, w, h, Admitted(out, oc, w, h, Neighbours(p), 4), nG)
    ensures DepthUpdate(v0, v, w, h, Admitted(out, oc, w, h, Neighbours(p), 4), nG)
  {
    var moves := Neighbours(p);
    v, heap := v0, heap0;
    ExpandStart(out, oc, v0, hv, w, h, heap0, moves, nG);
    for k := 0 to 4
      invariant IsGrid(v, w, h)
      invariant Pushed(out, oc, hv, w, h, heap0, moves, k, nG, heap)
      invariant DepthUpdate(v0, v, w, h, Admitted(out, oc, w, h, moves, k), nG)
    {
      var m := moves[k];
      ghost var heapBefore, vBefore := heap, v;
      if 0 <= m.x < w && 0 <= m.y < h && At(out, m) == EMPTY && At(oc, m) == -1 {
        var nH := At(hv, m);
        var nF := nH + nG;
        heap := heap + [Entry(nF, nH, m)];
        v := Put(v, m, nG);
      }
      PushStep(out, oc, hv, w, h, heap0, moves, k, nG, heapBefore, heap);
      DepthStep(out, oc, v0, w, h, moves, k, nG, vBefore, v);
    }
  }

  /** Before the first move nothing is pushed and nothing updated. */
  lemma ExpandStart(out: seq<seq<int>>, oc: seq<seq<int>>, v0: seq<seq<int>>, hv: seq<seq<int>>, w: nat, h: nat,
                    heap0: seq<Entry>, moves: seq<Pos>, nG: int)
    requires IsGrid(out, w, h) && IsGrid(oc, w, h) && IsGrid(v0, w, h) && IsGrid(hv, w, h)
    ensures Pushed(out, oc, hv, w, h, heap0, moves, 0, nG, heap0)
    ensures DepthUpdate(v0, v0, w, h, Admitted(out, oc, w, h, moves, 0), nG)
  {
    assert heap0 + [] == heap0;
  }

  /** One move of the expansion loop: an admitted move appends its entry, any other
      leaves the queue as it is. */
  lemma PushStep(out: seq<seq<int>>, oc: seq<seq<int>>, hv: seq<seq<int>>, w: nat, h: nat,
                 heap0: seq<Entry>, moves: seq<Pos>, k: nat, nG: int, heap: seq<Entry>, heap': seq<Entry>)
    requires IsGrid(out, w, h) && IsGrid(oc, w, h) && IsGrid(hv, w, h) && k < |moves|
    requires Pushed(out, oc, hv, w, h, heap0, moves, k, nG, heap)
    requires Admits(out, oc, w, h, moves[k]) ==>
      heap' == heap + [Entry(At(hv, moves[k]) + nG, At(hv, moves[k]), moves[k])]
    requires !Admits(out, oc, w, h, moves[k]) ==> heap' == heap
    ensures Pushed(out, oc, hv, w, h, heap0, moves, k + 1, nG, heap')
  {
    var m := moves[k];
    var before := Admitted(out, oc, w, h, moves, k);
    AdmittedSnoc(out, oc, w, h, moves, k);
    if Admits(out, oc, w, h, m) {
      var e := Entry(At(hv, m) + nG, At(hv, m), m);
      calc {
        heap';
        (heap0 + EntriesFor(hv, w, h, before, nG)) + [e];
        heap0 + (EntriesFor(hv, w, h, before, nG) + [e]);
        { EntriesSnoc(hv, w, h, before, m, nG); }
        heap0 + EntriesFor(hv, w, h, before + [m], nG);
      }
    }
  }

  /** One move of the expansion loop: an admitted move records `nG` for its cell, any
      other leaves the table as it is. */
  lemma DepthStep(out: seq<seq<int>>, oc: seq<seq<int>>, v0: seq<seq<int>>, w: nat, h: nat,
                  moves: seq<Pos>, k: nat, nG: int, v: seq<seq<int>>, v': seq<seq<int>>)
    requires IsGrid(out, w, h) && IsGrid(oc, w, h) && IsGrid(v0, w, h) && IsGrid(v, w, h) && k < |moves|
    requires DepthUpdate(v0, v, w, h, Admitted(out, oc, w, h, moves, k), nG)
    requires Admits(out, oc, w, h, moves[k]) ==> v' == Put(v, moves[k], nG)
    requires !Admits(out, oc, w, h, moves[k]) ==> v' == v
    ensures IsGrid(v', w, h) && DepthUpdate(v0, v', w, h, Admitted(out, oc, w, h, moves, k + 1), nG)
  {
    AdmittedSnoc(out, oc, w, h, moves, k);
    if Admits(out, oc, w, h, moves[k]) {
      DepthExtend(v0, v, w, h, Admitted(out, oc, w, h, moves, k), moves[k], nG);
    }
  }

  /** `c` has a value, and unless it is the start an expanded neighbour one step
      shallower. */
  ghost predicate Rooted(v: seq<seq<int>>, w: nat, h: nat, start: Pos, popped: set<Pos>, c: Pos)
    requires IsGrid(v, w, h) && InGrid(w, h, c)
  {
    At(v, c) >= 0 && (c != start ==> HasParent(popped, v, w, h, c))
  }

  /** Every queued cell is free, in the table and rooted. */
  ghost predicate HeapOk(g: seq<seq<int>>, v: seq<seq<int>>, w: nat, h: nat, start: Pos,
                         heap: seq<Entry>, popped: set<Pos>)
    requires IsGrid(g, w, h) && IsGrid(v, w, h)
  {
    forall e :: e in heap ==> InGrid(w, h, e.pos) && e.pos in Free(g, w, h) && Rooted(v, w, h, start, popped, e.pos)
  }

  /** Every expanded cell is free, in the table and rooted. */
  ghost predicate Settled(g: seq<seq<int>>, v: seq<seq<int>>, w: nat, h: nat, start: Pos, popped: set<Pos>)
    requires IsGrid(g, w, h) && IsGrid(v, w, h)
  {
    forall c :: c in popped ==> InGrid(w, h, c) && c in Free(g, w, h) && Rooted(v, w, h, start, popped, c)
  }

  /** The start has value 0 and is expanded, unless nothing is yet and it alone is
      queued. */
  ghost predicate StartOk(v: seq<seq<int>>, w: nat, h: nat, start: Pos, heap: seq<Entry>, popped: set<Pos>)
    requires IsGrid(v, w, h)
  {
    && InGrid(w, h, start) && At(v, start) == 0
    && (start in popped || (popped == {} && |heap| == 1 && heap[0].pos == start))
  }

  ghost predicate InHeap(heap: seq<Entry>, n: Pos)
  {
    exists e :: e in heap && e.pos == n
  }

  /** Every free neighbour of an expanded cell is expanded or queued. */
  ghost predicate Covered(g: seq<seq<int>>, w: nat, h: nat, heap: seq<Entry>, popped: set<Pos>)
    requires IsGrid(g, w, h)
  {
    forall c, n :: c in popped && n in Neighbours(c) && n in Free(g, w, h) ==> n in popped || InHeap(heap, n)
  }

  /** The state of the A* loop: `popped` holds the expanded cells, `out` the scratch
      table with them marked, `oc` the `open_closed` table, `v` the `visited` table. */
  ghost predicate AInv(g: seq<seq<int>>, w: nat, h: nat, start: Pos, exit: Pos,
                       out: seq<seq<int>>, oc: seq<seq<int>>, v: seq<seq<int>>, heap: seq<Entry>, popped: set<Pos>)
  {
    && IsGrid(g, w, h) && IsGrid(out, w, h) && IsGrid(oc, w, h) && IsGrid(v, w, h)
    && Marks(g, out, w, h, popped) && Expanded(oc, w, h, popped)
    && HeapOk(g, v, w, h, start, heap, popped) && Settled(g, v, w, h, start, popped)
    && StartOk(v, w, h, start, heap, popped) && Covered(g, w, h, heap, popped)
    && exit !in popped
  }

  /** The admitted neighbours of a popped cell are its free neighbours not yet
      expanded. */
  lemma AdmittedCells(g: seq<seq<int>>, w: nat, h: nat, out: seq<seq<int>>, oc: seq<seq<int>>,
                      popped: set<Pos>, p: Pos)
    requires IsGrid(g, w, h) && IsGrid(out, w, h) && IsGrid(oc, w, h)
    requires Marks(g, out, w, h, popped) && Expanded(oc, w, h, popped)
    ensures var a := Admitted(out, oc, w, h, Neighbours(p), 4);
      && (forall m :: m in a ==> m in Neighbours(p) && InGrid(w, h, m) && m in Free(g, w, h) && m !in popped)
      && (forall m :: m in Neighbours(p) && m in Free(g, w, h) && m !in popped ==> m in a)
  {
    var a := Admitted(out, oc, w, h, Neighbours(p), 4);
    forall m | m in Neighbours(p) && m in Free(g, w, h) && m !in popped
      ensures m in a
    {
      var k :| 0 <= k < 4 && Neighbours(p)[k] == m;
      assert Admits(out, oc, w, h, Neighbours(p)[k]);
    }
  }

  /** The cells a turn pushes, as `AdmittedCells` describes them. */
  ghost predicate AdmitOk(g: seq<seq<int>>, w: nat, h: nat, p: Pos, popped: set<Pos>, a: seq<Pos>)
    requires IsGrid(g, w, h)
  {
    && (forall m :: m in a ==> m in Neighbours(p) && InGrid(w, h, m) && m in Free(g, w, h) && m !in popped)
    && (forall m :: m in Neighbours(p) && m in Free(g, w, h) && m !in popped ==> m in a)
  }

  /** A rooted cell whose value and whose expanded cells' values are unchanged stays
      rooted. */
  lemma RootedKept(v: seq<seq<int>>, v': seq<seq<int>>, w: nat, h: nat, start: Pos, popped: set<Pos>, c: Pos)
    requires IsGrid(v, w, h) && IsGrid(v', w, h) && InGrid(w, h, c) && Rooted(v, w, h, start, popped, c)
    requires At(v', c) == At(v, c)
    requires forall n :: n in popped && InGrid(w, h, n) ==> At(v', n) == At(v, n)
    ensures Rooted(v', w, h, start, popped, c)
  {
    if c != start {
      var n :| n in Neighbours(c) && n in popped && InGrid(w, h, n) && At(v, n) == At(v, c) - 1;
      assert HasParent(popped, v', w, h, c);
    }
  }

  /** A neighbour of an expanded cell given one more than that cell's value is rooted. */
  lemma RootedNew(v: seq<seq<int>>, w: nat, h: nat, start: Pos, popped: set<Pos>, p: Pos, c: Pos)
    requires IsGrid(v, w, h) && InGrid(w, h, p) && InGrid(w, h, c)
    requires p in popped && c in Neighbours(p) && At(v, p) >= 0 && At(v, c) == At(v, p) + 1
    ensures Rooted(v, w, h, start, popped, c)
  {
    AdjacentSymmetric(p, c);
    assert p in Neighbours(c);
  }

  /** The queued cells stay rooted: a cell whose value changes gets `p` as its parent. */
  lemma StepHeap(g: seq<seq<int>>, w: nat, h: nat, start: Pos, v: seq<seq<int>>, v': seq<seq<int>>,
                 hv: seq<seq<int>>, heap: seq<Entry>, popped: set<Pos>, p: Pos, a: seq<Pos>, nG: int)
    requires IsGrid(g, w, h) && IsGrid(v, w, h) && IsGrid(v', w, h) && IsGrid(hv, w, h) && InGrid(w, h, p)
    requires HeapOk(g, v, w, h, start, heap, popped) && Settled(g, v, w, h, start, popped)
    requires p in popped && nG == At(v, p) + 1
    requires AdmitOk(g, w, h, p, popped, a) && DepthUpdate(v, v', w, h, a, nG)
    ensures HeapOk(g, v', w, h, start, heap + EntriesFor(hv, w, h, a, nG), popped)
    ensures Settled(g, v', w, h, start, popped)
  {
    assert forall n :: n in popped && InGrid(w, h, n) ==> At(v', n) == At(v, n);
    forall c | c in popped
      ensures Rooted(v', w, h, start, popped, c)
    {
      RootedKept(v, v', w, h, start, popped, c);
    }
    var e := EntriesFor(hv, w, h, a, nG);
    forall x | x in heap + e
      ensures InGrid(w, h, x.pos) && x.pos in Free(g, w, h) && Rooted(v', w, h, start, popped, x.pos)
    {
      if x in e {
        var k :| 0 <= k < |e| && e[k] == x;
        assert x.pos == a[k] && a[k] in a;
        RootedNew(v', w, h, start, popped, p, x.pos);
      } else {
        assert x in heap;
        if x.pos !in a {
          RootedKept(v, v', w, h, start, popped, x.pos);
        } else {
          RootedNew(v', w, h, start, popped, p, x.pos);
        }
      }
    }
  }

  /** Covered cells stay covered: the popped cell's free neighbours are pushed. */
  lemma StepCovered(g: seq<seq<int>>, w: nat, h: nat, hv: seq<seq<int>>, heap: seq<Entry>, popped: set<Pos>,
                    a: seq<Pos>, nG: int)
    requires IsGrid(g, w, h) && IsGrid(hv, w, h) && |heap| > 0
    requires Covered(g, w, h, heap, popped)
    requires forall i :: 0 <= i < |a| ==> InGrid(w, h, a[i])
    requires AdmitOk(g, w, h, Pop(heap).0.pos, popped + {Pop(heap).0.pos}, a)
    ensures Covered(g, w, h, Pop(heap).1 + EntriesFor(hv, w, h, a, nG), popped + {Pop(heap).0.pos})
  {
    var i := MinIndex(heap);
    var p := heap[i].pos;
    var rest := Remove(heap, i);
    var e := EntriesFor(hv, w, h, a, nG);
    var heap' := rest + e;
    forall c, n | c in popped + {p} && n in Neighbours(c) && n in Free(g, w, h) && n !in popped + {p}
      ensures InHeap(heap', n)
    {
      if c == p {
        var k :| 0 <= k < |a| && a[k] == n;
        assert e[k] in heap';
      } else {
        var x :| x in heap && x.pos == n;
        assert x != heap[i];
        assert x in multiset(heap) - multiset{heap[i]};
        assert x in rest;
      }
    }
  }

  /** The first component of the termination measure drops, or the popped entry was
      stale and the second one does. */
  ghost predicate Progress(w: nat, h: nat, popped: set<Pos>, heap: seq<Entry>, popped': set<Pos>, heap': seq<Entry>)
  {
    || |AllCells(w, h) - popped'| < |AllCells(w, h) - popped|
    || (popped' == popped && Stale(heap', popped') < Stale(heap, popped))
  }

  lemma StepProgress(w: nat, h: nat, hv: seq<seq<int>>, heap: seq<Entry>, popped: set<Pos>, a: seq<Pos>, nG: int)
    requires IsGrid(hv, w, h) && |heap| > 0 && InGrid(w, h, Pop(heap).0.pos)
    requires forall i :: 0 <= i < |a| ==> InGrid(w, h, a[i]) && a[i] !in popped + {Pop(heap).0.pos}
    ensures Progress(w, h, popped, heap, popped + {Pop(heap).0.pos}, Pop(heap).1 + EntriesFor(hv, w, h, a, nG))
    ensures |popped + {Pop(heap).0.pos}| <= |popped| + 1
  {
    var i := MinIndex(heap);
    var p := heap[i].pos;
    if p in popped {
      assert popped + {p} == popped;
      var e := EntriesFor(hv, w, h, a, nG);
      StaleRemove(heap, i, popped);
      StaleAppend(Remove(heap, i), e, popped);
      StaleNone(e, popped);
    } else {
      OneMore(w, h, popped, p);
    }
  }

  /** One turn of the A* loop past the exit test: mark the popped cell expanded and
      push its admitted neighbours. */
  method Advance(g: seq<seq<int>>, w: nat, h: nat, hv: seq<seq<int>>, start: Pos, exit: Pos,
                 ghost before: seq<seq<int>>, out: seq<seq<int>>, oc0: seq<seq<int>>, v0: seq<seq<int>>,
                 ghost heap0: seq<Entry>, rest: seq<Entry>, ghost popped: set<Pos>, p: Pos, nG: int)
    returns (oc: seq<seq<int>>, v: seq<seq<int>>, heap: seq<Entry>)
    requires IsGrid(hv, w, h) && AInv(g, w, h, start, exit, before, oc0, v0, heap0, popped)
    requires |heap0| > 0 && rest == Pop(heap0).1 && p == Pop(heap0).0.pos && p != exit
    requires out == Put(before, p, SEEN) && nG == At(v0, p) + 1
    ensures AInv(g, w, h, start, exit, out, oc, v, heap, popped + {p})
    ensures Progress(w, h, popped, heap0, popped + {p}, heap) && |popped + {p}| <= |popped| + 1
  {
    oc := Put(oc0, p, 1);
    v, heap := Expand(out, oc, v0, hv, w, h, rest, p, nG);
    AdvanceOk(g, w, h, hv, start, exit, before, out, oc0, v0, heap0, popped, p, nG, oc, v, heap);
  }

  /** What one turn past the exit test achieves: the invariant for the widened set of
      expanded cells, and progress. */
  lemma AdvanceOk(g: seq<seq<int>>, w: nat, h: nat, hv: seq<seq<int>>, start: Pos, exit: Pos,
                  before: seq<seq<int>>, out: seq<seq<int>>, oc0: seq<seq<int>>, v0: seq<seq<int>>,
                  heap0: seq<Entry>, popped: set<Pos>, p: Pos, nG: int,
                  oc: seq<seq<int>>, v: seq<seq<int>>, heap: seq<Entry>)
    requires IsGrid(hv, w, h) && AInv(g, w, h, start, exit, before, oc0, v0, heap0, popped)
    requires |heap0| > 0 && p == Pop(heap0).0.pos && p != exit
    requires out == Put(before, p, SEEN) && nG == At(v0, p) + 1 && oc == Put(oc0, p, 1)
    requires IsGrid(out, w, h) && IsGrid(oc, w, h) && IsGrid(v, w, h)
    requires heap == Pop(heap0).1 + EntriesFor(hv, w, h, Admitted(out, oc, w, h, Neighbours(p), 4), nG)
    requires DepthUpdate(v0, v, w, h, Admitted(out, oc, w, h, Neighbours(p), 4), nG)
    ensures AInv(g, w, h, start, exit, out, oc, v, heap, popped + {p})
    ensures Progress(w, h, popped, heap0, popped + {p}, heap) && |popped + {p}| <= |popped| + 1
  {
    var a := Admitted(out, oc, w, h, Neighbours(p), 4);
    PopState(g, v0, w, h, start, heap0, popped);
    StepMarks(g, before, w, h, popped, p);
    StepExpanded(oc0, oc, w, h, popped, p);
    AdmittedCells(g, w, h, out, oc, popped + {p}, p);
    StepState(g, w, h, hv, start, exit, before, oc0, v0, heap0, popped, p, nG, a, out, oc, v);
    StepProgress(w, h, hv, heap0, popped, a, nG);
  }

  /** The new state of one turn keeps the invariant. */
  lemma StepState(g: seq<seq<int>>, w: nat, h: nat, hv: seq<seq<int>>, start: Pos, exit: Pos,
                  before: seq<seq<int>>, oc0: seq<seq<int>>, v0: seq<seq<int>>, heap0: seq<Entry>, popped: set<Pos>,
                  p: Pos, nG: int, a: seq<Pos>, out: seq<seq<int>>, oc: seq<seq<int>>, v: seq<seq<int>>)
    requires IsGrid(hv, w, h) && AInv(g, w, h, start, exit, before, oc0, v0, heap0, popped)
    requires |heap0| > 0 && p == Pop(heap0).0.pos && p != exit && nG == At(v0, p) + 1
    requires IsGrid(out, w, h) && Marks(g, out, w, h, popped + {p})
    requires IsGrid(oc, w, h) && oc == Put(oc0, p, 1) && IsGrid(v, w, h)
    requires AdmitOk(g, w, h, p, popped + {p}, a) && DepthUpdate(v0, v, w, h, a, nG)
    ensures AInv(g, w, h, start, exit, out, oc, v, Pop(heap0).1 + EntriesFor(hv, w, h, a, nG), popped + {p})
  {
    PopState(g, v0, w, h, start, heap0, popped);
    StepHeap(g, w, h, start, v0, v, hv, Pop(heap0).1, popped + {p}, p, a, nG);
    StepCovered(g, w, h, hv, heap0, popped, a, nG);
    StepExpanded(oc0, oc, w, h, popped, p);
    StepStart(v0, v, w, h, start, heap0, popped, p, a, nG);
  }

  /** Popping a queued cell: it and the rest of the queue are rooted in the widened
      set of expanded cells. */
  lemma PopState(g: seq<seq<int>>, v: seq<seq<int>>, w: nat, h: nat, start: Pos, heap: seq<Entry>, popped: set<Pos>)
    requires IsGrid(g, w, h) && IsGrid(v, w, h) && |heap| > 0
    requires HeapOk(g, v, w, h, start, heap, popped) && Settled(g, v, w, h, start, popped)
    ensures var p := Pop(heap).0.pos;
      && InGrid(w, h, p) && p in Free(g, w, h)
      && HeapOk(g, v, w, h, start, Pop(heap).1, popped + {p}) && Settled(g, v, w, h, start, popped + {p})
  {
    var i := MinIndex(heap);
    var rest := Remove(heap, i);
    var p := heap[i].pos;
    assert heap[i] in heap;
    assert HeapOk(g, v, w, h, start, rest, popped) by {
      forall x | x in rest ensures x in heap {
        assert x in multiset(rest);
      }
    }
    HeapWiden(g, v, w, h, start, rest, popped, p);
    SettledWiden(g, v, w, h, start, heap, popped, p);
  }

  /** Marking the popped cell 1 in `open_closed` records it as expanded. */
  lemma StepExpanded(oc0: seq<seq<int>>, oc: seq<seq<int>>, w: nat, h: nat, popped: set<Pos>, p: Pos)
    requires IsGrid(oc0, w, h) && InGrid(w, h, p) && Expanded(oc0, w, h, popped) && oc == Put(oc0, p, 1)
    ensures IsGrid(oc, w, h) && Expanded(oc, w, h, popped + {p})
  {
  }

  /** After a turn the start is expanded and keeps value 0. */
  lemma StepStart(v0: seq<seq<int>>, v: seq<seq<int>>, w: nat, h: nat, start: Pos, heap0: seq<Entry>,
                  popped: set<Pos>, p: Pos, a: seq<Pos>, nG: int)
    requires IsGrid(v0, w, h) && IsGrid(v, w, h) && |heap0| > 0 && p == Pop(heap0).0.pos
    requires StartOk(v0, w, h, start, heap0, popped)
    requires (forall m :: m in a ==> m !in popped + {p}) && DepthUpdate(v0, v, w, h, a, nG)
    ensures InGrid(w, h, start) && At(v, start) == 0 && start in popped + {p}
  {
    if start !in popped {
      assert MinIndex(heap0) == 0;
    }
  }

  /** Expanding one more queued cell keeps every queued cell rooted. */
  lemma HeapWiden(g: seq<seq<int>>, v: seq<seq<int>>, w: nat, h: nat, start: Pos, heap: seq<Entry>,
                  popped: set<Pos>, p: Pos)
    requires IsGrid(g, w, h) && IsGrid(v, w, h) && HeapOk(g, v, w, h, start, heap, popped)
    ensures HeapOk(g, v, w, h, start, heap, popped + {p})
  {
    forall e | e in heap
      ensures Rooted(v, w, h, start, popped + {p}, e.pos)
    {
      if e.pos != start {
        var n :| n in Neighbours(e.pos) && n in popped && InGrid(w, h, n) && At(v, n) == At(v, e.pos) - 1;
        assert HasParent(popped + {p}, v, w, h, e.pos);
      }
    }
  }

  /** The popped cell joins the expanded cells, rooted like every queued cell. */
  lemma SettledWiden(g: seq<seq<int>>, v: seq<seq<int>>, w: nat, h: nat, start: Pos, heap: seq<Entry>,
                     popped: set<Pos>, p: Pos)
    requires IsGrid(g, w, h) && IsGrid(v, w, h) && |heap| > 0 && p == Pop(heap).0.pos
    requires HeapOk(g, v, w, h, start, heap, popped) && Settled(g, v, w, h, start, popped)
    ensures Settled(g, v, w, h, start, popped + {p})
  {
    assert heap[MinIndex(heap)] in heap;
    HeapWiden(g, v, w, h, start, heap, popped, p);
    forall c | c in popped
      ensures Rooted(v, w, h, start, popped + {p}, c)
    {
      if c != start {
        var n :| n in Neighbours(c) && n in popped && InGrid(w, h, n) && At(v, n) == At(v, c) - 1;
        assert HasParent(popped + {p}, v, w, h, c);
      }
    }
  }

  /** The state before the first turn: only the start queued, with value 0. */
  lemma AInit(g: seq<seq<int>>, w: nat, h: nat, hv: seq<seq<int>>, start: Pos, exit: Pos,
              oc: seq<seq<int>>, v: seq<seq<int>>, heap: seq<Entry>)
    requires Fresh(g, w, h) && IsGrid(hv, w, h) && InGrid(w, h, start) && At(g, start) == EMPTY
    requires oc == Filled(w, h, -1) && v == Put(Filled(w, h, -1), start, 0)
    requires heap == [Entry(At(hv, start), At(hv, start), start)]
    ensures AInv(g, w, h, start, exit, g, oc, v, heap, {})
  {
    assert heap[0] in heap;
  }

  /** Once the queue is empty, every cell reachable from the start is expanded. */
  lemma Exhausted(g: seq<seq<int>>, w: nat, h: nat, start: Pos, exit: Pos,
                  out: seq<seq<int>>, oc: seq<seq<int>>, v: seq<seq<int>>, heap: seq<Entry>, popped: set<Pos>, q: Pos)
    requires AInv(g, w, h, start, exit, out, oc, v, heap, popped) && |heap| == 0
    requires Reachable(Free(g, w, h), start, q)
    ensures q in popped
  {
    var free := Free(g, w, h);
    var path :| PathFromTo(free, path, start, q);
    forall c, n | c in popped && n in Neighbours(c) && n in free
      ensures n in popped
    {
      assert !InHeap(heap, n);
    }
    ClosedSetHoldsPath(free, popped, path);
  }

  /** The state when the exit is taken off the queue: the expanded cells and the exit
      form a tree of walks from the start. */
  lemma Finish(g: seq<seq<int>>, w: nat, h: nat, start: Pos, exit: Pos, before: seq<seq<int>>,
               oc: seq<seq<int>>, v: seq<seq<int>>, heap: seq<Entry>, popped: set<Pos>, out: seq<seq<int>>)
    requires Fresh(g, w, h) && AInv(g, w, h, start, exit, before, oc, v, heap, popped)
    requires |heap| > 0 && Pop(heap).0.pos == exit && out == Put(before, exit, SEEN)
    ensures IsGrid(out, w, h) && IsGrid(v, w, h) && InGrid(w, h, start) && InGrid(w, h, exit)
    ensures Marks(g, out, w, h, popped + {exit})
    ensures start in popped + {exit} && popped + {exit} <= Free(g, w, h) && At(v, start) == 0
    ensures ParentChained(Free(g, w, h), popped + {exit}, v, w, h, start)
  {
    var done := popped + {exit};
    PopState(g, v, w, h, start, heap, popped);
    StepMarks(g, before, w, h, popped, exit);
    if start !in popped {
      assert MinIndex(heap) == 0;
    }
    forall c | c in done
      ensures At(v, c) >= 0 && (c != start ==> HasParent(done, v, w, h, c) && At(v, c) > 0)
    {
      assert Rooted(v, w, h, start, done, c);
      if c != start {
        var n :| n in Neighbours(c) && n in done && InGrid(w, h, n) && At(v, n) == At(v, c) - 1;
        assert Rooted(v, w, h, start, done, n);
      }
    }
  }

  /** The expanded cells, marked 5, form a tree the reconstruction loop can follow from
      the exit down to the start. */
  lemma FinishChained(g: seq<seq<int>>, w: nat, h: nat, start: Pos, exit: Pos,
                      out: seq<seq<int>>, v: seq<seq<int>>, done: set<Pos>)
    requires Fresh(g, w, h) && IsGrid(out, w, h) && IsGrid(v, w, h) && InGrid(w, h, start) && InGrid(w, h, exit)
    requires exit in done && Marks(g, out, w, h, done) && ParentChained(Free(g, w, h), done, v, w, h, start)
    ensures Chained(out, v, w, h, start, exit)
  {
    forall c | InGrid(w, h, c) && (c == exit || At(out, c) == SEEN)
      ensures At(v, c) >= 0 && (c != start ==> exists n :: n in Neighbours(c) && Descends(out, v, w, h, c, n))
    {
      assert c in done;
      if c != start {
        var n :| n in Neighbours(c) && n in done && InGrid(w, h, n) && At(v, n) == At(v, c) - 1;
        assert Descends(out, v, w, h, c, n);
      }
    }
  }

  /** Every expanded cell is reachable from the start. */
  lemma DoneReachable(g: seq<seq<int>>, w: nat, h: nat, start: Pos, v: seq<seq<int>>, done: set<Pos>)
    requires IsGrid(g, w, h) && IsGrid(v, w, h) && ParentChained(Free(g, w, h), done, v, w, h, start)
    ensures done <= ReachableFrom(g, w, h, start)
  {
    forall c | c in done
      ensures c in ReachableFrom(g, w, h, start)
    {
      var path := WalkBack(Free(g, w, h), done, v, w, h, start, c);
    }
  }

  /** The walk the reconstruction loop marks runs through expanded cells, from the start
      to the exit, and is no longer than the exit's value. */
  lemma AStarTrail(g: seq<seq<int>>, w: nat, h: nat, start: Pos, exit: Pos,
                   explored: seq<seq<int>>, v: seq<seq<int>>, done: set<Pos>, trail: seq<Pos>)
    requires Fresh(g, w, h) && IsGrid(explored, w, h) && IsGrid(v, w, h)
    requires InGrid(w, h, start) && Marks(g, explored, w, h, done) && exit in done && done <= Free(g, w, h) && At(v, start) == 0
    requires |trail| >= 1 && trail[0] == exit && trail[|trail| - 1] == start && Trail(explored, v, w, h, trail)
    ensures forall i :: 0 <= i < |trail| ==> trail[i] in done
    ensures |trail| <= At(v, exit) + 1 && PathFromTo(Free(g, w, h), Reverse(trail), start, exit)
  {
    var free := Free(g, w, h);
    forall j | 0 <= j < |trail|
      ensures trail[j] in done && trail[j] in free
    {
      if j > 0 {
        assert At(explored, trail[j]) == SEEN;
      }
    }
    TrailBound(explored, v, w, h, trail, 0);
    TrailIsWalk(explored, v, w, h, trail, free);
    ReversePath(free, trail);
  }

  /** What the search loop leaves once it has popped the exit: the expanded cells `done`,
      the exit among them, marked 5 and chained to the entrance by depths. */
  ghost predicate ExitState(g: seq<seq<int>>, w: nat, h: nat, start: Pos, exit: Pos,
                            out: seq<seq<int>>, v: seq<seq<int>>, done: set<Pos>)
  {
    && IsGrid(g, w, h) && IsGrid(out, w, h) && IsGrid(v, w, h) && InGrid(w, h, exit)
    && Marks(g, out, w, h, done) && Chained(out, v, w, h, start, exit)
    && start in done && exit in done && done <= Free(g, w, h) && At(v, start) == 0
    && ParentChained(Free(g, w, h), done, v, w, h, start)
  }

  /** The search loop's state: running, or stopped at the exit. */
  ghost predicate SearchLoop(g: seq<seq<int>>, w: nat, h: nat, start: Pos, exit: Pos, out: seq<seq<int>>,
                             oc: seq<seq<int>>, v: seq<seq<int>>, heap: seq<Entry>, popped: set<Pos>, found: bool)
  {
    if found then ExitState(g, w, h, start, exit, out, v, popped)
    else AInv(g, w, h, start, exit, out, oc, v, heap, popped)
  }

  /** The exit is popped: the expanded cells and the exit are what the loop leaves. */
  lemma ExitPopped(g: seq<seq<int>>, w: nat, h: nat, start: Pos, exit: Pos, before: seq<seq<int>>,
                   oc: seq<seq<int>>, v: seq<seq<int>>, heap: seq<Entry>, popped: set<Pos>, out: seq<seq<int>>)
    requires Fresh(g, w, h) && AInv(g, w, h, start, exit, before, oc, v, heap, popped)
    requires |heap| > 0 && Pop(heap).0.pos == exit && out == Put(before, exit, SEEN)
    ensures ExitState(g, w, h, start, exit, out, v, popped + {exit})
  {
    Finish(g, w, h, start, exit, before, oc, v, heap, popped, out);
    FinishChained(g, w, h, start, exit, out, v, popped + {exit});
  }

  lemma AddOne(s: set<Pos>, x: Pos)
    ensures |s + {x}| <= |s| + 1
  {
    if x in s {
      assert s + {x} == s;
    }
  }

  /** A log of pops lists exactly the expanded cells. */
  ghost predicate Logged(pops: seq<Pos>, popped: set<Pos>)
  {
    forall q :: q in popped <==> q in pops
  }

  /** The pop log of the search loop after `numVisited` pops: one entry per pop, its
      cells the expanded ones, and once the exit is found it is the last entry and the
      only one. */
  ghost predicate LogState(pops: seq<Pos>, popped: set<Pos>, numVisited: nat, exit: Pos, found: bool)
  {
    && |popped| <= numVisited == |pops| && Logged(pops, popped)
    && (found ==> |pops| > 0 && pops[|pops| - 1] == exit && exit !in pops[..|pops| - 1])
  }

  lemma LogTurn(pops: seq<Pos>, popped: set<Pos>, numVisited: nat, exit: Pos, p: Pos, found: bool)
    requires LogState(pops, popped, numVisited, exit, false)
    requires found == (p == exit) && (found ==> p !in popped)
    ensures LogState(pops + [p], popped + {p}, numVisited + 1, exit, found)
  {
    AddOne(popped, p);
    assert (pops + [p])[..|pops|] == pops;
  }

  /** One turn of the search loop: pop the least entry `p`, count the pop, mark the cell
      visited, and stop if it is the exit or expand it otherwise. A cell already
      expanded (a stale entry) is counted and expanded again, and leaves the set of
      expanded cells as it was. */
  method PopTurn(g: seq<seq<int>>, w: nat, h: nat, hv: seq<seq<int>>, start: Pos, exit: Pos,
                 out0: seq<seq<int>>, oc0: seq<seq<int>>, v0: seq<seq<int>>, heap0: seq<Entry>,
                 ghost popped0: set<Pos>, numVisited0: nat)
    returns (out: seq<seq<int>>, oc: seq<seq<int>>, v: seq<seq<int>>, heap: seq<Entry>,
             ghost popped: set<Pos>, numVisited: nat, ghost p: Pos, found: bool)
    requires Fresh(g, w, h) && IsGrid(hv, w, h) && AInv(g, w, h, start, exit, out0, oc0, v0, heap0, popped0)
    requires |heap0| > 0
    ensures p == Pop(heap0).0.pos && numVisited == numVisited0 + 1
    ensures popped == popped0 + {p} && found == (p == exit) && (found ==> p !in popped0)
    ensures SearchLoop(g, w, h, start, exit, out, oc, v, heap, popped, found)
    ensures found || Progress(w, h, popped0, heap0, popped, heap)
  {
    PopLeast(heap0);
    var top := Pop(heap0);
    var cell := top.0.pos;
    p := cell;
    var nG := At(v0, cell) + 1;
    numVisited := numVisited0 + 1;
    out := Put(out0, cell, SEEN);
    if cell == exit {
      ExitPopped(g, w, h, start, exit, out0, oc0, v0, heap0, popped0, out);
      oc, v, heap, popped, found := oc0, v0, heap0, popped0 + {exit}, true;
    } else {
      oc, v, heap := Advance(g, w, h, hv, start, exit, out0, out, oc0, v0, heap0, top.1, popped0, cell, nG);
      popped, found := popped0 + {cell}, false;
    }
  }

  /** The search loop of `A_star`. A cell can be pushed by several parents before it is
      popped, so the heap can hand out a cell already expanded; such a stale pop is
      counted too. `pops` logs the popped cells in order: the count is its length, its
      cells are the expanded cells `done`, and the exit comes last and only there. The
      stale pops are the `numVisited - |done|` repeats of the log. */
  method Explore(g: seq<seq<int>>, w: nat, h: nat, hv: seq<seq<int>>, start: Pos, exit: Pos)
    returns (out: seq<seq<int>>, v: seq<seq<int>>, numVisited: nat, ghost done: set<Pos>, ghost pops: seq<Pos>)
    requires Fresh(g, w, h) && IsGrid(hv, w, h) && InGrid(w, h, start) && At(g, start) == EMPTY
    requires Reachable(Free(g, w, h), start, exit)
    ensures IsGrid(out, w, h) && IsGrid(v, w, h) && InGrid(w, h, exit)
    ensures Marks(g, out, w, h, done) && Chained(out, v, w, h, start, exit)
    ensures start in done && exit in done && done <= Free(g, w, h) && At(v, start) == 0
    ensures ParentChained(Free(g, w, h), done, v, w, h, start)
    ensures |done| <= numVisited == |pops| && forall q :: q in done <==> q in pops
    ensures pops[|pops| - 1] == exit && exit !in pops[..|pops| - 1]
  {
    var oc := Filled(w, h, -1);
    v := Put(Filled(w, h, -1), start, 0);
    var heap := [Entry(At(hv, start), At(hv, start), start)];
    out := g;
    numVisited := 0;
    pops := [];
    ghost var popped: set<Pos> := {};
    var found := false;
    AInit(g, w, h, hv, start, exit, oc, v, heap);
    while |heap| > 0 && !found
      invariant SearchLoop(g, w, h, start, exit, out, oc, v, heap, popped, found)
      invariant LogState(pops, popped, numVisited, exit, found)
      decreases if found then 0 else 1, |AllCells(w, h) - popped|, Stale(heap, popped)
    {
      ghost var pops0, popped0, numVisited0 := pops, popped, numVisited;
      ghost var p;
      out, oc, v, heap, popped, numVisited, p, found :=
        PopTurn(g, w, h, hv, start, exit, out, oc, v, heap, popped, numVisited);
      LogTurn(pops0, popped0, numVisited0, exit, p, found);
      pops := pops0 + [p];
    }
    if !found {
      Exhausted(g, w, h, start, exit, out, oc, v, heap, popped, exit);
      assert false;
    }
    done := popped;
  }

  /** `A_star`: the search loop, then the reconstruction loop. The search takes the
      exit off the queue; the path length is the number of steps of a free walk from
      start to exit (not necessarily a shortest one), the visit count is the length of
      the pop log `Explore` describes, and the scratch table ends with a walk no longer
      than that marked 4, the other expanded cells 5 and every other cell as it was. */
  method Search(g: seq<seq<int>>, w: nat, h: nat, hv: seq<seq<int>>, start: Pos, exit: Pos)
    returns (out: seq<seq<int>>, pathLength: int, numVisited: nat, ghost trail: seq<Pos>, ghost done: set<Pos>,
             ghost pops: seq<Pos>)
    requires Fresh(g, w, h) && IsGrid(hv, w, h) && InGrid(w, h, start) && At(g, start) == EMPTY
    requires Reachable(Free(g, w, h), start, exit)
    ensures IsGrid(out, w, h)
    ensures start in done && exit in done && done <= ReachableFrom(g, w, h, start)
    ensures |done| <= numVisited == |pops| && forall q :: q in done <==> q in pops
    ensures pops[|pops| - 1] == exit && exit !in pops[..|pops| - 1]
    ensures |trail| <= pathLength + 1 && PathFromTo(Free(g, w, h), Reverse(trail), start, exit)
    ensures exists path :: PathFromTo(Free(g, w, h), path, start, exit) && |path| == pathLength + 1
    ensures forall q :: InGrid(w, h, q) ==>
      At(out, q) == if q in trail then PATH else if q in done then SEEN else At(g, q)
  {
    var explored, v;
    explored, v, numVisited, done, pops := Explore(g, w, h, hv, start, exit);
    pathLength := At(v, exit);
    out, trail := TraceBack(explored, v, w, h, start, exit);
    AStarTrail(g, w, h, start, exit, explored, v, done, trail);
    DoneReachable(g, w, h, start, v, done);
    var walk := WalkBack(Free(g, w, h), done, v, w, h, start, exit);
  }
}
