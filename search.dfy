/** Breadth-first search over the labyrinth and the path reconstruction it shares with
    A* (`bfs`, projekt.py:204-249; the reconstruction loop also at projekt.py:303-317).
    A search works on a scratch copy of the loaded table, which holds walls and empty
    cells only: dequeued cells are marked 5 and the reconstructed path 4. */
module Search {
  import opened Grid
  import opened Paths
  import opened Trace
  import opened Scratch

  /** A move the expansion takes: into the table, not yet discovered (depth -1) and
      still 0 on the scratch table. */
  predicate Opens(out: seq<seq<int>>, d: seq<seq<int>>, w: nat, h: nat, m: Pos)
    requires IsGrid(out, w, h) && IsGrid(d, w, h)
  {
    0 <= m.x < w && 0 <= m.y < h && At(d, m) == -1 && At(out, m) == EMPTY
  }

  /** The moves among the first `n` of `ms` that the expansion takes, in order. */
  function Opened(out: seq<seq<int>>, d: seq<seq<int>>, w: nat, h: nat, ms: seq<Pos>, n: nat): (r: seq<Pos>)
    requires IsGrid(out, w, h) && IsGrid(d, w, h) && n <= |ms|
    ensures forall i :: 0 <= i < |r| ==> r[i] in ms[..n] && Opens(out, d, w, h, r[i])
    ensures forall i :: 0 <= i < n && Opens(out, d, w, h, ms[i]) ==> ms[i] in r
  {
    if n == 0 then []
    else Opened(out, d, w, h, ms, n - 1) + (if Opens(out, d, w, h, ms[n - 1]) then [ms[n - 1]] else [])
  }

  /** The move loop of one expansion: every neighbour of `p` that is in the table,
      undiscovered and still free gets depth `depth` and joins the back of the queue. */
  method Expand(out: seq<seq<int>>, d0: seq<seq<int>>, w: nat, h: nat, queue0: seq<Pos>, p: Pos, depth: int)
    returns (d: seq<seq<int>>, queue: seq<Pos>)
    requires IsGrid(out, w, h) && IsGrid(d0, w, h)
    ensures IsGrid(d, w, h)
    ensures queue == queue0 + Opened(out, d0, w, h, Neighbours(p), 4)
    ensures DepthUpdate(d0, d, w, h, Opened(out, d0, w, h, Neighbours(p), 4), depth)
  {
    var moves := Neighbours(p);
    d, queue := d0, queue0;
    for k := 0 to 4
      invariant IsGrid(d, w, h)
      invariant queue == queue0 + Opened(out, d0, w, h, moves, k)
      invariant DepthUpdate(d0, d, w, h, Opened(out, d0, w, h, moves, k), depth)
    {
      var m := moves[k];
      ghost var before := Opened(out, d0, w, h, moves, k);
      assert m !in before by {
        assert forall i :: 0 <= i < k ==> moves[i] != m;
      }
      if 0 <= m.x < w && 0 <= m.y < h {
        if At(d, m) == -1 {
          if At(out, m) == EMPTY {
            DepthExtend(d0, d, w, h, before, m, depth);
            d := Put(d, m, depth);
            queue := queue + [m];
          }
        }
      }
    }
  }

  /** Every queued and every dequeued cell lies in the table. */
  ghost predicate Placed(w: nat, h: nat, queue: seq<Pos>, closed: set<Pos>)
  {
    (forall i :: 0 <= i < |queue| ==> InGrid(w, h, queue[i])) && forall c :: c in closed ==> InGrid(w, h, c)
  }

  /** Queued cells are free, not yet dequeued, and queued once. */
  ghost predicate QueueOk(g: seq<seq<int>>, w: nat, h: nat, queue: seq<Pos>, closed: set<Pos>)
    requires IsGrid(g, w, h)
  {
    && closed <= Free(g, w, h)
    && (forall i :: 0 <= i < |queue| ==> queue[i] in Free(g, w, h) && queue[i] !in closed)
    && (forall i, j :: 0 <= i < j < |queue| ==> queue[i] != queue[j])
  }

  /** The discovered cells (dequeued or queued) are those with a depth; the others hold -1. */
  ghost predicate Depths(d: seq<seq<int>>, w: nat, h: nat, queue: seq<Pos>, closed: set<Pos>, start: Pos)
    requires IsGrid(d, w, h)
  {
    && (forall q :: InGrid(w, h, q) ==> (At(d, q) >= 0 <==> q in closed || q in queue))
    && (forall q :: InGrid(w, h, q) ==> At(d, q) >= -1)
    && (start in closed || start in queue)
    && InGrid(w, h, start) && At(d, start) == 0
  }

  /** The queue holds at most two consecutive depths in order, and no dequeued cell is
      deeper than its front. */
  ghost predicate Layered(d: seq<seq<int>>, w: nat, h: nat, queue: seq<Pos>, closed: set<Pos>)
    requires IsGrid(d, w, h) && Placed(w, h, queue, closed)
  {
    && (forall i, j :: 0 <= i < j < |queue| ==> At(d, queue[i]) <= At(d, queue[j]) <= At(d, queue[i]) + 1)
    && (|queue| > 0 ==> forall c :: c in closed ==> At(d, c) <= At(d, queue[0]))
  }

  /** Every free neighbour of a dequeued cell is discovered, at most one step deeper. */
  ghost predicate Frontier(g: seq<seq<int>>, d: seq<seq<int>>, w: nat, h: nat, queue: seq<Pos>, closed: set<Pos>)
    requires IsGrid(g, w, h) && IsGrid(d, w, h)
  {
    forall c, n :: c in closed && n in Neighbours(c) && n in Free(g, w, h) ==>
      InGrid(w, h, c) && InGrid(w, h, n) && (n in closed || n in queue) && At(d, n) <= At(d, c) + 1
  }

  /** Only the start has depth 0, and a deeper cell has a neighbour in `reached` one
      step shallower. */
  ghost predicate ParentOk(reached: set<Pos>, d: seq<seq<int>>, w: nat, h: nat, start: Pos, c: Pos)
    requires IsGrid(d, w, h) && InGrid(w, h, c)
  {
    (At(d, c) == 0 ==> c == start) && (At(d, c) > 0 ==> HasParent(reached, d, w, h, c))
  }

  /** Every discovered cell has its parent among the dequeued ones. */
  ghost predicate Parents(d: seq<seq<int>>, w: nat, h: nat, queue: seq<Pos>, closed: set<Pos>, start: Pos)
    requires IsGrid(d, w, h) && Placed(w, h, queue, closed)
  {
    && (forall c :: c in closed ==> ParentOk(closed, d, w, h, start, c))
    && (forall i :: 0 <= i < |queue| ==> ParentOk(closed, d, w, h, start, queue[i]))
  }

  /** The state of the breadth-first loop: `closed` holds the dequeued cells, the queue
      the discovered ones still waiting, `d` the depth of every discovered cell (-1 for
      the others) and `out` the scratch table with the dequeued cells marked. */
  ghost predicate BfsInv(g: seq<seq<int>>, w: nat, h: nat, start: Pos,
                         out: seq<seq<int>>, d: seq<seq<int>>, queue: seq<Pos>, closed: set<Pos>)
  {
    && IsGrid(g, w, h) && IsGrid(out, w, h) && IsGrid(d, w, h) && Placed(w, h, queue, closed)
    && QueueOk(g, w, h, queue, closed) && Marks(g, out, w, h, closed)
    && Depths(d, w, h, queue, closed, start) && Layered(d, w, h, queue, closed)
    && Frontier(g, d, w, h, queue, closed) && Parents(d, w, h, queue, closed, start)
  }

  /** What a turn adds: undiscovered free neighbours of the front, each once; every
      undiscovered free neighbour is added. */
  lemma AddedCells(g: seq<seq<int>>, w: nat, h: nat, start: Pos,
                   out: seq<seq<int>>, d: seq<seq<int>>, queue: seq<Pos>, closed: set<Pos>, out': seq<seq<int>>)
    requires IsGrid(g, w, h) && IsGrid(out, w, h) && IsGrid(d, w, h)
    requires Marks(g, out, w, h, closed) && Depths(d, w, h, queue, closed, start)
    requires |queue| > 0 && InGrid(w, h, queue[0]) && out' == Put(out, queue[0], SEEN)
    ensures AddedOk(g, d, w, h, queue, closed, Opened(out', d, w, h, Neighbours(queue[0]), 4))
  {
    var p := queue[0];
    var added := Opened(out', d, w, h, Neighbours(p), 4);
    forall m | m in added
      ensures m in Neighbours(p) && InGrid(w, h, m) && At(d, m) == -1 && m !in closed && m !in queue
      ensures m in Free(g, w, h) && m != p
    {
      assert Opens(out', d, w, h, m);
      assert m != p;
    }
    forall m | m in Neighbours(p) && m in Free(g, w, h) && At(d, m) == -1
      ensures m in added
    {
      assert m !in closed && m != p;
      var k :| 0 <= k < 4 && Neighbours(p)[k] == m;
      assert Opens(out', d, w, h, Neighbours(p)[k]);
    }
    OpenedDistinct(out', d, w, h, Neighbours(p), 4);
  }

  lemma OpenedDistinct(out: seq<seq<int>>, d: seq<seq<int>>, w: nat, h: nat, ms: seq<Pos>, n: nat)
    requires IsGrid(out, w, h) && IsGrid(d, w, h) && n <= |ms|
    requires forall i, j :: 0 <= i < j < |ms| ==> ms[i] != ms[j]
    ensures var r := Opened(out, d, w, h, ms, n); forall i, j :: 0 <= i < j < |r| ==> r[i] != r[j]
  {
    if n > 0 {
      OpenedDistinct(out, d, w, h, ms, n - 1);
      var r := Opened(out, d, w, h, ms, n - 1);
      forall i | 0 <= i < |r|
        ensures r[i] != ms[n - 1]
      {
        var k :| 0 <= k < n - 1 && ms[k] == r[i];
      }
    }
  }

  /** The cells a turn adds, as `AddedCells` describes them. */
  ghost predicate AddedOk(g: seq<seq<int>>, d: seq<seq<int>>, w: nat, h: nat,
                          queue: seq<Pos>, closed: set<Pos>, added: seq<Pos>)
    requires IsGrid(g, w, h) && IsGrid(d, w, h) && |queue| > 0
  {
    && (forall m :: m in added ==>
          m in Neighbours(queue[0]) && InGrid(w, h, m) && At(d, m) == -1 && m !in closed && m !in queue
          && m in Free(g, w, h) && m != queue[0])
    && (forall m :: m in Neighbours(queue[0]) && m in Free(g, w, h) && At(d, m) == -1 ==> m in added)
    && (forall i, j :: 0 <= i < j < |added| ==> added[i] != added[j])
  }

  lemma StepQueue(g: seq<seq<int>>, d: seq<seq<int>>, w: nat, h: nat,
                  queue: seq<Pos>, closed: set<Pos>, added: seq<Pos>)
    requires IsGrid(g, w, h) && IsGrid(d, w, h) && |queue| > 0
    requires Placed(w, h, queue, closed) && QueueOk(g, w, h, queue, closed)
    requires AddedOk(g, d, w, h, queue, closed, added)
    ensures Placed(w, h, queue[1..] + added, closed + {queue[0]})
    ensures QueueOk(g, w, h, queue[1..] + added, closed + {queue[0]})
  {
    var q' := queue[1..] + added;
    forall i, j | 0 <= i < j < |q'|
      ensures q'[i] != q'[j]
    {
      if j < |queue| - 1 {
        assert q'[i] == queue[i + 1] && q'[j] == queue[j + 1];
      } else if i < |queue| - 1 {
        assert q'[i] == queue[i + 1] && q'[j] in added;
      }
    }
  }

  lemma StepDepths(d: seq<seq<int>>, d': seq<seq<int>>, g: seq<seq<int>>, w: nat, h: nat,
                   queue: seq<Pos>, closed: set<Pos>, start: Pos, added: seq<Pos>)
    requires IsGrid(g, w, h) && IsGrid(d, w, h) && IsGrid(d', w, h) && |queue| > 0
    requires Placed(w, h, queue, closed)
    requires Depths(d, w, h, queue, closed, start) && AddedOk(g, d, w, h, queue, closed, added)
    requires DepthUpdate(d, d', w, h, added, At(d, queue[0]) + 1)
    ensures Depths(d', w, h, queue[1..] + added, closed + {queue[0]}, start)
  {
    var q' := queue[1..] + added;
    forall q | InGrid(w, h, q)
      ensures At(d', q) >= 0 <==> q in closed + {queue[0]} || q in q'
    {
      if q in queue {
        var i :| 0 <= i < |queue| && queue[i] == q;
        if i > 0 {
          assert q'[i - 1] == q;
        }
      }
    }
    if start in queue {
      var i :| 0 <= i < |queue| && queue[i] == start;
      if i > 0 {
        assert q'[i - 1] == start;
      }
    }
  }

  lemma StepLayered(d: seq<seq<int>>, d': seq<seq<int>>, g: seq<seq<int>>, w: nat, h: nat,
                    queue: seq<Pos>, closed: set<Pos>, start: Pos, added: seq<Pos>)
    requires IsGrid(g, w, h) && IsGrid(d, w, h) && IsGrid(d', w, h) && |queue| > 0
    requires Placed(w, h, queue, closed) && Placed(w, h, queue[1..] + added, closed + {queue[0]})
    requires Layered(d, w, h, queue, closed) && AddedOk(g, d, w, h, queue, closed, added)
    requires DepthUpdate(d, d', w, h, added, At(d, queue[0]) + 1)
    ensures Layered(d', w, h, queue[1..] + added, closed + {queue[0]})
  {
    var p := queue[0];
    var q' := queue[1..] + added;
    assert forall i :: 0 <= i < |queue| ==> At(d', queue[i]) == At(d, queue[i]);
    assert forall c :: c in closed ==> At(d', c) == At(d, c);
    forall i, j | 0 <= i < j < |q'|
      ensures At(d', q'[i]) <= At(d', q'[j]) <= At(d', q'[i]) + 1
    {
      if j < |queue| - 1 {
        assert q'[i] == queue[i + 1] && q'[j] == queue[j + 1];
      } else if i < |queue| - 1 {
        assert q'[i] == queue[i + 1] && q'[j] in added;
        assert At(d, queue[0]) <= At(d, queue[i + 1]) <= At(d, queue[0]) + 1;
      } else {
        assert q'[i] in added && q'[j] in added;
      }
    }
    if |q'| > 0 {
      if |queue| > 1 {
        assert q'[0] == queue[1];
        assert At(d, queue[0]) <= At(d, queue[1]);
      } else {
        assert q'[0] in added;
      }
    }
  }

  lemma StepFrontier(d: seq<seq<int>>, d': seq<seq<int>>, g: seq<seq<int>>, w: nat, h: nat,
                     queue: seq<Pos>, closed: set<Pos>, start: Pos, added: seq<Pos>)
    requires IsGrid(g, w, h) && IsGrid(d, w, h) && IsGrid(d', w, h) && |queue| > 0
    requires Placed(w, h, queue, closed) && QueueOk(g, w, h, queue, closed)
    requires Depths(d, w, h, queue, closed, start) && Layered(d, w, h, queue, closed)
    requires Frontier(g, d, w, h, queue, closed) && AddedOk(g, d, w, h, queue, closed, added)
    requires DepthUpdate(d, d', w, h, added, At(d, queue[0]) + 1)
    ensures Frontier(g, d', w, h, queue[1..] + added, closed + {queue[0]})
  {
    var p := queue[0];
    forall c, n | c in closed + {p} && n in Neighbours(c) && n in Free(g, w, h)
      ensures InGrid(w, h, c) && InGrid(w, h, n)
      ensures n in closed + {p} || n in queue[1..] + added
      ensures At(d', n) <= At(d', c) + 1
    {
      FrontierCell(d, d', g, w, h, queue, closed, start, added, c, n);
    }
  }

  /** One free neighbour `n` of a cell `c` dequeued after the turn. */
  lemma FrontierCell(d: seq<seq<int>>, d': seq<seq<int>>, g: seq<seq<int>>, w: nat, h: nat,
                     queue: seq<Pos>, closed: set<Pos>, start: Pos, added: seq<Pos>, c: Pos, n: Pos)
    requires IsGrid(g, w, h) && IsGrid(d, w, h) && IsGrid(d', w, h) && |queue| > 0
    requires Placed(w, h, queue, closed) && QueueOk(g, w, h, queue, closed)
    requires Depths(d, w, h, queue, closed, start) && Layered(d, w, h, queue, closed)
    requires Frontier(g, d, w, h, queue, closed) && AddedOk(g, d, w, h, queue, closed, added)
    requires DepthUpdate(d, d', w, h, added, At(d, queue[0]) + 1)
    requires c in closed + {queue[0]} && n in Neighbours(c) && n in Free(g, w, h)
    ensures InGrid(w, h, c) && InGrid(w, h, n)
    ensures n in closed + {queue[0]} || n in queue[1..] + added
    ensures At(d', n) <= At(d', c) + 1
  {
    var p := queue[0];
    var q' := queue[1..] + added;
    assert InGrid(w, h, n);
    if n in closed || n in queue {
      assert At(d', n) == At(d, n);
      if n in queue && n != p {
        var i :| 0 <= i < |queue| && queue[i] == n;
        assert i > 0 && q'[i - 1] == n;
        assert At(d, n) <= At(d, p) + 1;
      }
    } else {
      assert At(d, n) == -1;
      if c == p {
        assert n in added;
        var i :| 0 <= i < |added| && added[i] == n;
        assert q'[|queue| - 1 + i] == n;
      }
    }
  }

  /** A cell keeps its parent when `reached` grows and no depth in it changes. */
  lemma ParentKept(reached: set<Pos>, reached': set<Pos>, d: seq<seq<int>>, d': seq<seq<int>>,
                   w: nat, h: nat, start: Pos, c: Pos)
    requires IsGrid(d, w, h) && IsGrid(d', w, h) && InGrid(w, h, c)
    requires ParentOk(reached, d, w, h, start, c) && reached <= reached'
    requires At(d', c) == At(d, c)
    requires forall n :: n in reached ==> InGrid(w, h, n) && At(d', n) == At(d, n)
    ensures ParentOk(reached', d', w, h, start, c)
  {
    if At(d, c) > 0 {
      var n :| n in Neighbours(c) && n in reached && InGrid(w, h, n) && At(d, n) == At(d, c) - 1;
      assert n in reached';
    }
  }

  lemma StepParents(d: seq<seq<int>>, d': seq<seq<int>>, g: seq<seq<int>>, w: nat, h: nat,
                    queue: seq<Pos>, closed: set<Pos>, start: Pos, added: seq<Pos>)
    requires IsGrid(g, w, h) && IsGrid(d, w, h) && IsGrid(d', w, h) && |queue| > 0
    requires Placed(w, h, queue, closed) && Placed(w, h, queue[1..] + added, closed + {queue[0]})
    requires Depths(d, w, h, queue, closed, start) && Parents(d, w, h, queue, closed, start)
    requires AddedOk(g, d, w, h, queue, closed, added)
    requires DepthUpdate(d, d', w, h, added, At(d, queue[0]) + 1)
    ensures Parents(d', w, h, queue[1..] + added, closed + {queue[0]}, start)
  {
    var p := queue[0];
    var q' := queue[1..] + added;
    var closed' := closed + {p};
    assert forall i :: 0 <= i < |queue| ==> At(d', queue[i]) == At(d, queue[i]);
    assert forall n :: n in closed ==> InGrid(w, h, n) && At(d', n) == At(d, n);
    forall c | c in closed'
      ensures ParentOk(closed', d', w, h, start, c)
    {
      ParentKept(closed, closed', d, d', w, h, start, c);
    }
    forall i | 0 <= i < |q'|
      ensures ParentOk(closed', d', w, h, start, q'[i])
    {
      if i < |queue| - 1 {
        assert q'[i] == queue[i + 1];
        ParentKept(closed, closed', d, d', w, h, start, queue[i + 1]);
      } else {
        var c := q'[i];
        assert c in added;
        AdjacentSymmetric(p, c);
        assert p in Neighbours(c) && p in closed' && At(d', p) == At(d', c) - 1;
      }
    }
  }

  /** One turn of the breadth-first loop keeps its invariant. */
  lemma BfsStep(g: seq<seq<int>>, w: nat, h: nat, start: Pos,
                out: seq<seq<int>>, d: seq<seq<int>>, queue: seq<Pos>, closed: set<Pos>,
                d': seq<seq<int>>, added: seq<Pos>)
    requires BfsInv(g, w, h, start, out, d, queue, closed) && |queue| > 0
    requires IsGrid(d', w, h) && AddedOk(g, d, w, h, queue, closed, added)
    requires DepthUpdate(d, d', w, h, added, At(d, queue[0]) + 1)
    ensures BfsInv(g, w, h, start, Put(out, queue[0], SEEN), d', queue[1..] + added, closed + {queue[0]})
  {
    StepMarks(g, out, w, h, closed, queue[0]);
    StepQueue(g, d, w, h, queue, closed, added);
    StepDepths(d, d', g, w, h, queue, closed, start, added);
    StepLayered(d, d', g, w, h, queue, closed, start, added);
    StepFrontier(d, d', g, w, h, queue, closed, start, added);
    StepParents(d, d', g, w, h, queue, closed, start, added);
  }

  lemma BfsInit(g: seq<seq<int>>, w: nat, h: nat, start: Pos, d: seq<seq<int>>)
    requires Fresh(g, w, h) && InGrid(w, h, start) && At(g, start) == EMPTY
    requires d == Put(Filled(w, h, -1), start, 0)
    ensures BfsInv(g, w, h, start, g, d, [start], {})
  {
  }

  /** Once the queue is empty, the dequeued cells are everything the source's loop
      promises. */
  lemma BfsDone(g: seq<seq<int>>, w: nat, h: nat, start: Pos, out: seq<seq<int>>, d: seq<seq<int>>, closed: set<Pos>)
    requires BfsInv(g, w, h, start, out, d, [], closed)
    ensures start in closed && closed <= Free(g, w, h)
    ensures forall q :: InGrid(w, h, q) ==> At(out, q) == if q in closed then SEEN else At(g, q)
    ensures DepthClosed(Free(g, w, h), closed, d, w, h)
    ensures ParentChained(Free(g, w, h), closed, d, w, h, start)
  {
  }

  /** One turn of the main loop of `bfs`: dequeue the front cell, mark it 5 and expand
      it with depth one more than its own. */
  method Turn(g: seq<seq<int>>, w: nat, h: nat, start: Pos,
              out0: seq<seq<int>>, d0: seq<seq<int>>, queue0: seq<Pos>, ghost closed: set<Pos>)
    returns (out: seq<seq<int>>, d: seq<seq<int>>, queue: seq<Pos>)
    requires BfsInv(g, w, h, start, out0, d0, queue0, closed) && |queue0| > 0
    ensures BfsInv(g, w, h, start, out, d, queue, closed + {queue0[0]})
    ensures |closed + {queue0[0]}| == |closed| + 1
    ensures |AllCells(w, h) - (closed + {queue0[0]})| < |AllCells(w, h) - closed|
  {
    var p := queue0[0];
    queue := queue0[1..];
    out := Put(out0, p, SEEN);
    var childDepth := At(d0, p) + 1;
    d, queue := Expand(out, d0, w, h, queue, p, childDepth);
    TurnKeeps(g, w, h, start, out0, d0, queue0, closed, out, d, queue);
    OneMore(w, h, closed, p);
  }

  /** A turn keeps the invariant of the breadth-first loop. */
  lemma TurnKeeps(g: seq<seq<int>>, w: nat, h: nat, start: Pos,
                  out0: seq<seq<int>>, d0: seq<seq<int>>, queue0: seq<Pos>, closed: set<Pos>,
                  out: seq<seq<int>>, d: seq<seq<int>>, queue: seq<Pos>)
    requires BfsInv(g, w, h, start, out0, d0, queue0, closed) && |queue0| > 0
    requires out == Put(out0, queue0[0], SEEN) && IsGrid(d, w, h)
    requires queue == queue0[1..] + Opened(out, d0, w, h, Neighbours(queue0[0]), 4)
    requires DepthUpdate(d0, d, w, h, Opened(out, d0, w, h, Neighbours(queue0[0]), 4), At(d0, queue0[0]) + 1)
    ensures BfsInv(g, w, h, start, out, d, queue, closed + {queue0[0]})
  {
    AddedCells(g, w, h, start, out0, d0, queue0, closed, out);
    BfsStep(g, w, h, start, out0, d0, queue0, closed, d, Opened(out, d0, w, h, Neighbours(queue0[0]), 4));
  }

  /** The main loop of `bfs`: dequeue the front cell, mark it 5, count it, and expand
      it. When the queue runs dry the dequeued cells are closed under free steps, every
      one of them has a dequeued parent one step shallower, and neighbouring depths
      differ by at most one. */
  method Explore(g: seq<seq<int>>, w: nat, h: nat, start: Pos)
    returns (out: seq<seq<int>>, d: seq<seq<int>>, numVisited: nat, ghost closed: set<Pos>)
    requires Fresh(g, w, h) && InGrid(w, h, start) && At(g, start) == EMPTY
    ensures IsGrid(out, w, h) && IsGrid(d, w, h)
    ensures start in closed && closed <= Free(g, w, h)
    ensures forall q :: InGrid(w, h, q) ==> At(out, q) == if q in closed then SEEN else At(g, q)
    ensures At(d, start) == 0
    ensures DepthClosed(Free(g, w, h), closed, d, w, h)
    ensures ParentChained(Free(g, w, h), closed, d, w, h, start)
    ensures numVisited == |closed|
  {
    out := g;
    d := Filled(w, h, -1);
    d := Put(d, start, 0);
    var queue := [start];
    numVisited := 0;
    closed := {};
    BfsInit(g, w, h, start, d);
    while |queue| > 0
      invariant BfsInv(g, w, h, start, out, d, queue, closed)
      invariant numVisited == |closed|
      decreases |AllCells(w, h) - closed|
    {
      ghost var p := queue[0];
      numVisited := numVisited + 1;
      out, d, queue := Turn(g, w, h, start, out, d, queue, closed);
      closed := closed + {p};
    }
    BfsDone(g, w, h, start, out, d, closed);
  }

  /** The dequeued cells are exactly the free cells reachable from the start. */
  lemma ClosedIsReachable(g: seq<seq<int>>, w: nat, h: nat, start: Pos, d: seq<seq<int>>, closed: set<Pos>)
    requires IsGrid(g, w, h) && IsGrid(d, w, h) && InGrid(w, h, start) && At(d, start) == 0
    requires start in closed && closed <= Free(g, w, h)
    requires DepthClosed(Free(g, w, h), closed, d, w, h)
    requires ParentChained(Free(g, w, h), closed, d, w, h, start)
    ensures closed == ReachableFrom(g, w, h, start)
  {
    var free := Free(g, w, h);
    forall c | c in closed
      ensures c in ReachableFrom(g, w, h, start)
    {
      var path := WalkBack(free, closed, d, w, h, start, c);
    }
    forall q | q in ReachableFrom(g, w, h, start)
      ensures q in closed
    {
      var path :| PathFromTo(free, path, start, q);
      DepthBoundsPath(free, closed, d, w, h, path);
    }
  }

  /** The table the breadth-first loop leaves lets the reconstruction loop run from
      any dequeued exit back to the start. */
  lemma BfsChained(g: seq<seq<int>>, w: nat, h: nat, start: Pos, exit: Pos,
                   out: seq<seq<int>>, d: seq<seq<int>>, closed: set<Pos>)
    requires Fresh(g, w, h) && IsGrid(out, w, h) && IsGrid(d, w, h) && InGrid(w, h, exit)
    requires exit in closed && start in closed && closed <= Free(g, w, h)
    requires forall q :: InGrid(w, h, q) ==> At(out, q) == if q in closed then SEEN else At(g, q)
    requires ParentChained(Free(g, w, h), closed, d, w, h, start)
    ensures Chained(out, d, w, h, start, exit)
  {
    forall c | InGrid(w, h, c) && (c == exit || At(out, c) == SEEN)
      ensures At(d, c) >= 0 && (c != start ==> exists n :: n in Neighbours(c) && Descends(out, d, w, h, c, n))
    {
      assert c in closed;
      if c != start {
        var n :| n in Neighbours(c) && n in closed && InGrid(w, h, n) && At(d, n) == At(d, c) - 1;
        assert Descends(out, d, w, h, c, n);
      }
    }
  }

  /** Along the reconstructed walk each step goes exactly one level shallower: a
      dequeued neighbour is never more than one level off. */
  lemma {:induction false} TrailDepth(g: seq<seq<int>>, w: nat, h: nat, out: seq<seq<int>>, d: seq<seq<int>>,
                                      closed: set<Pos>, trail: seq<Pos>, i: nat)
    requires IsGrid(g, w, h) && IsGrid(out, w, h) && IsGrid(d, w, h)
    requires DepthClosed(Free(g, w, h), closed, d, w, h) && Trail(out, d, w, h, trail)
    requires forall j :: 0 <= j < |trail| ==> trail[j] in closed && trail[j] in Free(g, w, h)
    requires i < |trail|
    ensures At(d, trail[i]) == At(d, trail[0]) - i
  {
    if i > 0 {
      TrailDepth(g, w, h, out, d, closed, trail, i - 1);
      var c, n := trail[i - 1], trail[i];
      assert FirstDescent(out, d, w, h, c, n);
      AdjacentSymmetric(c, n);
      assert c in Neighbours(n);
    }
  }

  /** `bfs`: the breadth-first loop, then the reconstruction loop. The path length is
      the length of a shortest free walk from start to exit, the number of visited cells
      counts exactly the free cells reachable from the start, and the scratch table
      ends with a shortest walk marked 4, the other reachable cells 5 and every other
      cell as it was. */
  method BreadthFirst(g: seq<seq<int>>, w: nat, h: nat, start: Pos, exit: Pos)
    returns (out: seq<seq<int>>, pathLength: int, numVisited: nat, ghost trail: seq<Pos>)
    requires Fresh(g, w, h) && InGrid(w, h, start) && InGrid(w, h, exit) && At(g, start) == EMPTY
    requires Reachable(Free(g, w, h), start, exit)
    ensures IsGrid(out, w, h)
    ensures numVisited == |ReachableFrom(g, w, h, start)|
    ensures |trail| == pathLength + 1 && PathFromTo(Free(g, w, h), Reverse(trail), start, exit)
    ensures forall path :: PathFromTo(Free(g, w, h), path, start, exit) ==> |path| >= pathLength + 1
    ensures forall q :: InGrid(w, h, q) ==>
      At(out, q) == if q in trail then PATH else if q in ReachableFrom(g, w, h, start) then SEEN else At(g, q)
  {
    var explored, d, visited, closed := Explore(g, w, h, start);
    pathLength := At(d, exit);
    numVisited := visited;
    NoShorter(g, w, h, start, exit, d, closed);
    ClosedIsReachable(g, w, h, start, d, closed);
    BfsChained(g, w, h, start, exit, explored, d, closed);
    out, trail := TraceBack(explored, d, w, h, start, exit);
    BfsTrail(g, w, h, start, exit, explored, d, closed, trail);
    BfsMarks(g, w, h, start, explored, closed, out, trail);
  }

  /** No free walk from the start reaches the exit in fewer steps than its depth, and
      the exit, being reachable, is dequeued. */
  lemma NoShorter(g: seq<seq<int>>, w: nat, h: nat, start: Pos, exit: Pos, d: seq<seq<int>>, closed: set<Pos>)
    requires IsGrid(g, w, h) && IsGrid(d, w, h) && InGrid(w, h, start) && At(d, start) == 0
    requires start in closed && DepthClosed(Free(g, w, h), closed, d, w, h)
    requires Reachable(Free(g, w, h), start, exit)
    ensures exit in closed && InGrid(w, h, exit)
    ensures forall path :: PathFromTo(Free(g, w, h), path, start, exit) ==> |path| >= At(d, exit) + 1
  {
    var free := Free(g, w, h);
    forall path | PathFromTo(free, path, start, exit)
      ensures exit in closed && InGrid(w, h, exit) && |path| >= At(d, exit) + 1
    {
      DepthBoundsPath(free, closed, d, w, h, path);
    }
    var walk :| PathFromTo(free, walk, start, exit);
  }

  /** The scratch table after both loops. */
  lemma BfsMarks(g: seq<seq<int>>, w: nat, h: nat, start: Pos, explored: seq<seq<int>>,
                 closed: set<Pos>, out: seq<seq<int>>, trail: seq<Pos>)
    requires IsGrid(g, w, h) && IsGrid(explored, w, h) && IsGrid(out, w, h)
    requires closed == ReachableFrom(g, w, h, start)
    requires forall q :: InGrid(w, h, q) ==> At(explored, q) == if q in closed then SEEN else At(g, q)
    requires forall q :: InGrid(w, h, q) ==> At(out, q) == if q in trail then PATH else At(explored, q)
    ensures forall q :: InGrid(w, h, q) ==>
      At(out, q) == if q in trail then PATH else if q in ReachableFrom(g, w, h, start) then SEEN else At(g, q)
  {
  }

  /** What the reconstruction loop leaves after the breadth-first loop. */
  lemma BfsTrail(g: seq<seq<int>>, w: nat, h: nat, start: Pos, exit: Pos,
                 out: seq<seq<int>>, d: seq<seq<int>>, closed: set<Pos>, trail: seq<Pos>)
    requires Fresh(g, w, h) && IsGrid(out, w, h) && IsGrid(d, w, h)
    requires InGrid(w, h, start) && exit in closed && closed <= Free(g, w, h) && At(d, start) == 0
    requires forall q :: InGrid(w, h, q) ==> At(out, q) == if q in closed then SEEN else At(g, q)
    requires DepthClosed(Free(g, w, h), closed, d, w, h)
    requires |trail| >= 1 && trail[0] == exit && trail[|trail| - 1] == start && Trail(out, d, w, h, trail)
    ensures |trail| == At(d, exit) + 1 && PathFromTo(Free(g, w, h), Reverse(trail), start, exit)
  {
    var free := Free(g, w, h);
    forall j | 0 <= j < |trail|
      ensures trail[j] in closed && trail[j] in free
    {
      if j > 0 {
        assert At(out, trail[j]) == SEEN;
      }
    }
    TrailDepth(g, w, h, out, d, closed, trail, |trail| - 1);
    TrailIsWalk(out, d, w, h, trail, free);
    ReversePath(free, trail);
  }
}
