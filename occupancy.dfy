/** The occupancy encoding of the genetic search (`fit_binary_fields` and
    `predraw_binary_fields`, projekt.py:366-394 and 421-426). Gene position `i` says
    whether blank cell `cells[i]` (the row-major list `__binary_map`) is open; the
    fitness spreads from the entrance over open cells and reports the least squared
    distance to the exit it reaches. */
module Occupancy {
  import opened Grid
  import opened Paths
  import opened Scratch

  /** `one_count`: the sum of the gene's values. */
  function Sum(gene: seq<int>): int
  {
    if |gene| == 0 then 0 else Sum(gene[..|gene| - 1]) + gene[|gene| - 1]
  }

  /** What the constructor guarantees of `__binary_map`: cells of the table, distinct,
      and neither the entrance nor the exit (those hold 2 and 3 when it is built). */
  predicate MapOk(w: nat, h: nat, start: Pos, exit: Pos, cells: seq<Pos>)
  {
    && InGrid(w, h, start) && InGrid(w, h, exit)
    && (forall i :: 0 <= i < |cells| ==> InGrid(w, h, cells[i]) && cells[i] != start && cells[i] != exit)
    && (forall i, j :: 0 <= i < j < |cells| ==> cells[i] != cells[j])
  }

  /** The first `n` genes written over a zero table that has 1 at the entrance and
      the exit. */
  ghost predicate Occupies(t: seq<seq<int>>, w: nat, h: nat, start: Pos, exit: Pos, cells: seq<Pos>,
                           gene: seq<int>, n: nat)
    requires IsGrid(t, w, h) && MapOk(w, h, start, exit, cells) && n <= |gene| <= |cells|
  {
    && At(t, start) == 1 && At(t, exit) == 1
    && (forall i :: 0 <= i < n ==> At(t, cells[i]) == gene[i])
    && (forall q :: InGrid(w, h, q) && q != start && q != exit && (forall i :: 0 <= i < n ==> cells[i] != q) ==>
          At(t, q) == 0)
  }

  /** The first loop of `fit_binary_fields`: the occupancy table and `one_count`.
      A gene longer than the blank-cell list makes the source index out of range. */
  method Occupy(w: nat, h: nat, start: Pos, exit: Pos, cells: seq<Pos>, gene: seq<int>)
    returns (t: seq<seq<int>>, oneCount: int)
    requires MapOk(w, h, start, exit, cells) && |gene| <= |cells|
    ensures IsGrid(t, w, h) && Occupies(t, w, h, start, exit, cells, gene, |gene|)
    ensures oneCount == Sum(gene)
  {
    t := Filled(w, h, 0);
    t := Put(t, start, 1);
    t := Put(t, exit, 1);
    oneCount := 0;
    for i := 0 to |gene|
      invariant IsGrid(t, w, h) && Occupies(t, w, h, start, exit, cells, gene, i)
      invariant oneCount == Sum(gene[..i])
    {
      var p := cells[i];
      t := Put(t, p, gene[i]);
      oneCount := oneCount + gene[i];
      assert gene[..i + 1][..i] == gene[..i];
    }
    assert gene[..|gene|] == gene;
  }

  /** The open cells: those holding 1. */
  function Open(t: seq<seq<int>>, w: nat, h: nat): set<Pos>
    requires IsGrid(t, w, h)
  {
    CellsWith(t, w, h, 1)
  }

  /** The open cells connected to the entrance through open cells. */
  ghost function Component(t: seq<seq<int>>, w: nat, h: nat, start: Pos): (s: set<Pos>)
    requires IsGrid(t, w, h)
    ensures forall c :: c in s ==> InGrid(w, h, c) && At(t, c) == 1
  {
    Region(Open(t, w, h), start)
  }

  /** The cells of `open` connected to `start` through `open`. */
  ghost function Region(open: set<Pos>, start: Pos): (s: set<Pos>)
    ensures s <= open
  {
    set q | q in open && Reachable(open, start, q)
  }

  /** The cells a gene opens: the entrance, the exit, and `cells[i]` wherever
      `gene[i]` is 1. */
  ghost function Opened(start: Pos, exit: Pos, cells: seq<Pos>, gene: seq<int>): set<Pos>
    requires |gene| <= |cells|
  {
    {start, exit} + set i | 0 <= i < |gene| && gene[i] == 1 :: cells[i]
  }

  /** The occupancy table opens exactly the cells the gene names. */
  lemma OccupiedOpen(t: seq<seq<int>>, w: nat, h: nat, start: Pos, exit: Pos, cells: seq<Pos>, gene: seq<int>)
    requires IsGrid(t, w, h) && MapOk(w, h, start, exit, cells) && |gene| <= |cells|
    requires Occupies(t, w, h, start, exit, cells, gene, |gene|)
    ensures Open(t, w, h) == Opened(start, exit, cells, gene)
  {
    var lit := Opened(start, exit, cells, gene);
    forall q | q in Open(t, w, h)
      ensures q in lit
    {
      if q != start && q != exit {
        var i :| 0 <= i < |gene| && cells[i] == q;
      }
    }
    forall q | q in lit
      ensures q in Open(t, w, h)
    {
      if q != start && q != exit {
        var i :| 0 <= i < |gene| && gene[i] == 1 && cells[i] == q;
        assert At(t, cells[i]) == 1;
      }
    }
  }

  /** A move the spreading loop queues: into the table and still open. */
  predicate Accepts(t: seq<seq<int>>, w: nat, h: nat, m: Pos)
    requires IsGrid(t, w, h)
  {
    0 <= m.x < w && 0 <= m.y < h && At(t, m) == 1
  }

  /** The moves among the first `n` of `ms` that the loop queues, in order. */
  function Accepted(t: seq<seq<int>>, w: nat, h: nat, ms: seq<Pos>, n: nat): (r: seq<Pos>)
    requires IsGrid(t, w, h) && n <= |ms|
    ensures forall i :: 0 <= i < |r| ==> r[i] in ms && Accepts(t, w, h, r[i])
    ensures forall i :: 0 <= i < n && Accepts(t, w, h, ms[i]) ==> ms[i] in r
  {
    if n == 0 then []
    else Accepted(t, w, h, ms, n - 1) + (if Accepts(t, w, h, ms[n - 1]) then [ms[n - 1]] else [])
  }

  /** The move loop of one turn: every neighbour of `p` that is in the table and open
      joins the back of the queue, whether or not it is queued already. */
  method Enqueue(t: seq<seq<int>>, w: nat, h: nat, queue0: seq<Pos>, p: Pos) returns (queue: seq<Pos>)
    requires IsGrid(t, w, h)
    ensures queue == queue0 + Accepted(t, w, h, Neighbours(p), 4)
  {
    var moves := Neighbours(p);
    queue := queue0;
    assert queue0 + [] == queue0;
    for k := 0 to 4
      invariant queue == queue0 + Accepted(t, w, h, moves, k)
    {
      var m := moves[k];
      if 0 <= m.x < w && 0 <= m.y < h {
        if At(t, m) == 1 {
          queue := queue + [m];
        }
      }
    }
  }

  /** The number of queue entries whose cell is in `done`. */
  function Waiting(queue: seq<Pos>, done: set<Pos>): nat
  {
    if |queue| == 0 then 0 else (if queue[0] in done then 1 else 0) + Waiting(queue[1..], done)
  }

  lemma {:induction false} WaitingAppend(a: seq<Pos>, b: seq<Pos>, done: set<Pos>)
    ensures Waiting(a + b, done) == Waiting(a, done) + Waiting(b, done)
    decreases |a|
  {
    if |a| == 0 {
      assert a + b == b;
    } else {
      assert (a + b)[1..] == a[1..] + b;
      WaitingAppend(a[1..], b, done);
    }
  }

  lemma {:induction false} WaitingNone(queue: seq<Pos>, done: set<Pos>)
    requires forall i :: 0 <= i < |queue| ==> queue[i] !in done
    ensures Waiting(queue, done) == 0
    decreases |queue|
  {
    if |queue| > 0 {
      WaitingNone(queue[1..], done);
    }
  }

  /** The table is the occupancy table with the cells taken off the queue set to 0. */
  ghost predicate Cleared(t0: seq<seq<int>>, t: seq<seq<int>>, w: nat, h: nat, removed: set<Pos>)
    requires IsGrid(t0, w, h) && IsGrid(t, w, h)
  {
    forall q :: InGrid(w, h, q) ==> At(t, q) == if q in removed then 0 else At(t0, q)
  }

  /** Every cell taken off or waiting in the queue is in the entrance's component. */
  ghost predicate Within(t0: seq<seq<int>>, w: nat, h: nat, start: Pos, queue: seq<Pos>, removed: set<Pos>)
    requires IsGrid(t0, w, h)
  {
    && removed <= Component(t0, w, h, start)
    && forall i :: 0 <= i < |queue| ==> queue[i] in Component(t0, w, h, start)
  }

  /** Every open neighbour of a cell taken off the queue is taken off or waiting. */
  ghost predicate Closed(t0: seq<seq<int>>, w: nat, h: nat, queue: seq<Pos>, removed: set<Pos>)
    requires IsGrid(t0, w, h)
  {
    forall c, n :: c in removed && n in Neighbours(c) && n in Open(t0, w, h) ==> n in removed || n in queue
  }

  /** The state of the spreading loop. */
  ghost predicate SpreadInv(t0: seq<seq<int>>, w: nat, h: nat, start: Pos, t: seq<seq<int>>,
                            queue: seq<Pos>, removed: set<Pos>)
  {
    && IsGrid(t0, w, h) && IsGrid(t, w, h) && InGrid(w, h, start) && At(t0, start) == 1
    && Cleared(t0, t, w, h, removed) && Within(t0, w, h, start, queue, removed)
    && Closed(t0, w, h, queue, removed)
    && (start in removed || (removed == {} && queue == [start]))
  }

  /** `m` is the least value of `hv` over `cells`. */
  ghost predicate Least(hv: seq<seq<int>>, w: nat, h: nat, m: int, cells: set<Pos>)
    requires IsGrid(hv, w, h) && forall c :: c in cells ==> InGrid(w, h, c)
  {
    && (exists c :: c in cells && InGrid(w, h, c) && m == At(hv, c))
    && (forall c :: c in cells && InGrid(w, h, c) ==> m <= At(hv, c))
  }

  /** The measure drops: one more cell taken off, or a stale entry consumed. */
  ghost predicate Progress(w: nat, h: nat, removed: set<Pos>, queue: seq<Pos>, removed': set<Pos>, queue': seq<Pos>)
  {
    || |AllCells(w, h) - removed'| < |AllCells(w, h) - removed|
    || (removed' == removed && Waiting(queue', removed') < Waiting(queue, removed))
  }

  lemma SpreadInit(t0: seq<seq<int>>, w: nat, h: nat, start: Pos)
    requires IsGrid(t0, w, h) && InGrid(w, h, start) && At(t0, start) == 1
    ensures SpreadInv(t0, w, h, start, t0, [start], {})
  {
    ReachableSelf(Open(t0, w, h), start);
  }

  /** The cells a turn queues are in the component and still open. */
  lemma AddedCells(t0: seq<seq<int>>, w: nat, h: nat, start: Pos, t': seq<seq<int>>, removed': set<Pos>,
                   p: Pos, added: seq<Pos>)
    requires IsGrid(t0, w, h) && IsGrid(t', w, h) && Cleared(t0, t', w, h, removed')
    requires p in Component(t0, w, h, start) && added == Accepted(t', w, h, Neighbours(p), 4)
    ensures forall m :: m in added ==> m in Component(t0, w, h, start) && m !in removed'
  {
    var open := Open(t0, w, h);
    forall m | m in added
      ensures m in Component(t0, w, h, start) && m !in removed'
    {
      assert Adjacent(p, m);
      ReachableStep(open, start, p, m);
    }
  }

  lemma StepWithin(t0: seq<seq<int>>, w: nat, h: nat, start: Pos, queue: seq<Pos>, removed: set<Pos>,
                   added: seq<Pos>)
    requires IsGrid(t0, w, h) && Within(t0, w, h, start, queue, removed) && |queue| > 0
    requires forall m :: m in added ==> m in Component(t0, w, h, start)
    ensures Within(t0, w, h, start, queue[1..] + added, removed + {queue[0]})
  {
    var queue' := queue[1..] + added;
    forall i | 0 <= i < |queue'|
      ensures queue'[i] in Component(t0, w, h, start)
    {
      if i >= |queue| - 1 {
        assert queue'[i] == added[i - (|queue| - 1)];
      } else {
        assert queue'[i] == queue[i + 1];
      }
    }
  }

  lemma StepClosed(t0: seq<seq<int>>, w: nat, h: nat, t': seq<seq<int>>, queue: seq<Pos>, removed: set<Pos>,
                   added: seq<Pos>)
    requires IsGrid(t0, w, h) && IsGrid(t', w, h) && Closed(t0, w, h, queue, removed) && |queue| > 0
    requires Cleared(t0, t', w, h, removed + {queue[0]})
    requires added == Accepted(t', w, h, Neighbours(queue[0]), 4)
    ensures Closed(t0, w, h, queue[1..] + added, removed + {queue[0]})
  {
    var p := queue[0];
    var removed' := removed + {p};
    var queue' := queue[1..] + added;
    forall c, n | c in removed' && n in Neighbours(c) && n in Open(t0, w, h)
      ensures n in removed' || n in queue'
    {
      if n !in removed' {
        if c == p {
          var k :| 0 <= k < 4 && Neighbours(p)[k] == n;
          assert Accepts(t', w, h, Neighbours(p)[k]);
          assert n in added;
        } else {
          var i :| 0 <= i < |queue| && queue[i] == n;
          assert queue'[i - 1] == n;
        }
      }
    }
  }

  lemma StepWaiting(w: nat, h: nat, queue: seq<Pos>, removed: set<Pos>, added: seq<Pos>)
    requires |queue| > 0 && InGrid(w, h, queue[0])
    requires forall m :: m in added ==> m !in removed + {queue[0]}
    ensures Progress(w, h, removed, queue, removed + {queue[0]}, queue[1..] + added)
  {
    var p := queue[0];
    if p in removed {
      assert removed + {p} == removed;
      forall i | 0 <= i < |added|
        ensures added[i] !in removed
      {
        assert added[i] in added;
      }
      WaitingNone(added, removed);
      WaitingAppend(queue[1..], added, removed);
    } else {
      OneMore(w, h, removed, p);
    }
  }

  /** What one turn does to the invariant, given the queued moves. */
  lemma SpreadStep(t0: seq<seq<int>>, hv: seq<seq<int>>, w: nat, h: nat, start: Pos, t: seq<seq<int>>,
                   queue: seq<Pos>, md: int, removed: set<Pos>, t': seq<seq<int>>, queue': seq<Pos>, md': int)
    requires SpreadInv(t0, w, h, start, t, queue, removed) && IsGrid(hv, w, h) && |queue| > 0
    requires Least(hv, w, h, md, removed + {start})
    requires InGrid(w, h, queue[0]) && md' == if md <= At(hv, queue[0]) then md else At(hv, queue[0])
    requires t' == Put(t, queue[0], 0)
    requires queue' == queue[1..] + Accepted(t', w, h, Neighbours(queue[0]), 4)
    ensures SpreadInv(t0, w, h, start, t', queue', removed + {queue[0]})
    ensures Least(hv, w, h, md', removed + {queue[0]} + {start})
    ensures Progress(w, h, removed, queue, removed + {queue[0]}, queue')
  {
    var p := queue[0];
    LeastAdd(hv, w, h, md, removed + {start}, p);
    assert removed + {p} + {start} == (removed + {start}) + {p};
    var removed' := removed + {p};
    var added := Accepted(t', w, h, Neighbours(p), 4);
    assert p in Component(t0, w, h, start);
    assert Cleared(t0, t', w, h, removed');
    AddedCells(t0, w, h, start, t', removed', p, added);
    StepWithin(t0, w, h, start, queue, removed, added);
    StepClosed(t0, w, h, t', queue, removed, added);
    StepWaiting(w, h, queue, removed, added);
  }

  /** One turn of the spreading loop: take the front cell off, fold its distance into
      the minimum, close it, and queue its open neighbours. */
  method Spend(t0: seq<seq<int>>, hv: seq<seq<int>>, w: nat, h: nat, start: Pos,
               t: seq<seq<int>>, queue: seq<Pos>, md: int, ghost removed: set<Pos>)
    returns (t': seq<seq<int>>, queue': seq<Pos>, md': int)
    requires SpreadInv(t0, w, h, start, t, queue, removed) && IsGrid(hv, w, h) && |queue| > 0
    requires Least(hv, w, h, md, removed + {start})
    ensures SpreadInv(t0, w, h, start, t', queue', removed + {queue[0]})
    ensures Least(hv, w, h, md', removed + {queue[0]} + {start})
    ensures Progress(w, h, removed, queue, removed + {queue[0]}, queue')
  {
    var p := queue[0];
    assert p in Component(t0, w, h, start);
    md' := if md <= At(hv, p) then md else At(hv, p);
    t' := Put(t, p, 0);
    queue' := Enqueue(t', w, h, queue[1..], p);
    SpreadStep(t0, hv, w, h, start, t, queue, md, removed, t', queue', md');
  }

  /** Folding one more cell into a minimum with `min`. */
  lemma LeastAdd(hv: seq<seq<int>>, w: nat, h: nat, m: int, cells: set<Pos>, p: Pos)
    requires IsGrid(hv, w, h) && InGrid(w, h, p) && forall c :: c in cells ==> InGrid(w, h, c)
    requires Least(hv, w, h, m, cells)
    ensures Least(hv, w, h, if m <= At(hv, p) then m else At(hv, p), cells + {p})
  {
  }

  /** The spreading loop of `fit_binary_fields`: a breadth-first walk from the entrance
      over open cells that closes a cell when it is taken off the queue, not when it is
      queued, so a cell may wait in the queue several times. It ends, and the minimum
      it reports is the least squared distance over the entrance's component. */
  method Spread(t0: seq<seq<int>>, hv: seq<seq<int>>, w: nat, h: nat, start: Pos) returns (md: int)
    requires IsGrid(t0, w, h) && IsGrid(hv, w, h) && InGrid(w, h, start) && At(t0, start) == 1
    ensures start in Component(t0, w, h, start)
    ensures Least(hv, w, h, md, Component(t0, w, h, start))
  {
    var t := t0;
    var queue := [start];
    md := At(hv, start);
    ghost var removed: set<Pos> := {};
    SpreadInit(t0, w, h, start);
    while |queue| > 0
      invariant SpreadInv(t0, w, h, start, t, queue, removed)
      invariant Least(hv, w, h, md, removed + {start})
      decreases |AllCells(w, h) - removed|, Waiting(queue, removed)
    {
      ghost var p := queue[0];
      t, queue, md := Spend(t0, hv, w, h, start, t, queue, md, removed);
      removed := removed + {p};
    }
    SpreadDone(t0, w, h, start, t, removed);
  }

  /** Once the queue is empty, the cells taken off are the whole component. */
  lemma SpreadDone(t0: seq<seq<int>>, w: nat, h: nat, start: Pos, t: seq<seq<int>>, removed: set<Pos>)
    requires SpreadInv(t0, w, h, start, t, [], removed)
    ensures start in removed && removed + {start} == Component(t0, w, h, start)
  {
    var open := Open(t0, w, h);
    var comp := Component(t0, w, h, start);
    assert ClosedUnderSteps(open, removed);
    forall q | q in comp
      ensures q in removed
    {
      var path :| PathFromTo(open, path, start, q);
      ClosedSetHoldsPath(open, removed, path);
    }
  }

  /** `fit_binary_fields`: the least squared distance to the exit over the cells the
      gene connects to the entrance, and how many more cells the gene opens than the
      shortest path has steps (at least 0). `bfsLength` is the stored `__bfs_path_length`. */
  method FitBinaryFields(w: nat, h: nat, start: Pos, exit: Pos, cells: seq<Pos>, hv: seq<seq<int>>,
                         gene: seq<int>, bfsLength: int) returns (md: int, extra: int)
    requires MapOk(w, h, start, exit, cells) && |gene| <= |cells|
    requires IsGrid(hv, w, h) && forall q :: InGrid(w, h, q) ==> At(hv, q) == HValue(exit, q)
    ensures start in Region(Opened(start, exit, cells, gene), start)
    ensures Least(hv, w, h, md, Region(Opened(start, exit, cells, gene), start))
    ensures 0 <= md <= At(hv, start)
    ensures md == 0 <==> exit in Region(Opened(start, exit, cells, gene), start)
    ensures extra >= 0 && extra >= Sum(gene) - bfsLength
    ensures extra == 0 || extra == Sum(gene) - bfsLength
  {
    var t, oneCount := Occupy(w, h, start, exit, cells, gene);
    md := Spread(t, hv, w, h, start);
    OccupiedOpen(t, w, h, start, exit, cells, gene);
    MinDistance(hv, w, h, exit, start, md, Region(Opened(start, exit, cells, gene), start));
    extra := if oneCount - bfsLength > 0 then oneCount - bfsLength else 0;
  }

  /** The least squared distance over a set of cells holding the entrance is no more
      than the entrance's, never negative, and 0 exactly when the set holds the exit. */
  lemma MinDistance(hv: seq<seq<int>>, w: nat, h: nat, exit: Pos, start: Pos, md: int, region: set<Pos>)
    requires IsGrid(hv, w, h) && forall q :: InGrid(w, h, q) ==> At(hv, q) == HValue(exit, q)
    requires forall c :: c in region ==> InGrid(w, h, c)
    requires start in region && Least(hv, w, h, md, region)
    ensures 0 <= md <= At(hv, start)
    ensures md == 0 <==> exit in region
  {
    var c :| c in region && InGrid(w, h, c) && md == At(hv, c);
    HValueZeroOnlyAtExit(exit, c);
    if exit in region {
      HValueZeroOnlyAtExit(exit, exit);
    }
  }

  /** With a gene of zeros and ones, `one_count` lies between 0 and the gene's length. */
  lemma {:induction false} SumBounds(gene: seq<int>)
    requires forall i :: 0 <= i < |gene| ==> gene[i] == 0 || gene[i] == 1
    ensures 0 <= Sum(gene) <= |gene|
    decreases |gene|
  {
    if |gene| > 0 {
      SumBounds(gene[..|gene| - 1]);
    }
  }

  /** The overlay holds `data` with the first `n` gene cells replaced by `4 * gene[i]`. */
  ghost predicate Painted(data: seq<seq<int>>, gm: seq<seq<int>>, w: nat, h: nat, cells: seq<Pos>,
                          gene: seq<int>, n: nat)
    requires IsGrid(data, w, h) && IsGrid(gm, w, h) && n <= |gene| <= |cells|
    requires forall i :: 0 <= i < |cells| ==> InGrid(w, h, cells[i])
  {
    && (forall i :: 0 <= i < n ==> InGrid(w, h, cells[i]) && At(gm, cells[i]) == 4 * gene[i])
    && (forall q :: InGrid(w, h, q) && (forall i :: 0 <= i < n ==> cells[i] != q) ==> At(gm, q) == At(data, q))
  }

  /** `predraw_binary_fields`: a copy of the labyrinth with every gene cell set to
      `4 * gene[i]`, so open cells show as path and closed ones as blank. */
  method DrawOccupancy(data: seq<seq<int>>, w: nat, h: nat, start: Pos, exit: Pos, cells: seq<Pos>,
                       gene: seq<int>) returns (gm: seq<seq<int>>)
    requires IsGrid(data, w, h) && MapOk(w, h, start, exit, cells) && |gene| <= |cells|
    ensures IsGrid(gm, w, h) && Painted(data, gm, w, h, cells, gene, |gene|)
  {
    gm := data;
    for i := 0 to |gene|
      invariant IsGrid(gm, w, h) && Painted(data, gm, w, h, cells, gene, i)
    {
      gm := Put(gm, cells[i], gene[i] * 4);
    }
  }

  /** For a gene of zeros and ones over a labyrinth holding codes 0 to 3, the drawn
      path cells are exactly the cells the fitness treats as opened, apart from the
      entrance and the exit. */
  lemma DrawnIsOpened(data: seq<seq<int>>, gm: seq<seq<int>>, w: nat, h: nat, start: Pos, exit: Pos,
                      cells: seq<Pos>, gene: seq<int>)
    requires IsGrid(data, w, h) && IsGrid(gm, w, h) && MapOk(w, h, start, exit, cells) && |gene| <= |cells|
    requires forall q :: InGrid(w, h, q) ==> 0 <= At(data, q) <= 3
    requires forall i :: 0 <= i < |gene| ==> gene[i] == 0 || gene[i] == 1
    requires Painted(data, gm, w, h, cells, gene, |gene|)
    ensures forall q :: InGrid(w, h, q) ==>
              (At(gm, q) == PATH <==> q in Opened(start, exit, cells, gene) && q != start && q != exit)
  {
    var lit := Opened(start, exit, cells, gene);
    forall q | InGrid(w, h, q)
      ensures At(gm, q) == PATH <==> q in lit && q != start && q != exit
    {
      if exists i :: 0 <= i < |gene| && cells[i] == q {
        var i :| 0 <= i < |gene| && cells[i] == q;
        if gene[i] == 1 {
          assert q in lit;
        } else {
          forall j | 0 <= j < |gene| && gene[j] == 1
            ensures cells[j] != q
          {
          }
        }
      }
    }
  }
}
