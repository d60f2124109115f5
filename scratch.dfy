/** Facts about the scratch tables the two searches work on, and about the depth
    tables they fill. A scratch table is filled while the maze is loaded and holds
    walls (1) and empty cells (0) only; a search marks the cells it takes off its queue
    with 5. */
module Scratch {
  import opened Grid
  import opened Paths

  /** A scratch table as the loader leaves it: walls and empty cells only. */
  ghost predicate Fresh(g: seq<seq<int>>, w: nat, h: nat)
  {
    IsGrid(g, w, h) && forall q :: InGrid(w, h, q) ==> At(g, q) == EMPTY || At(g, q) == WALL
  }

  /** The cells a search may step on. */
  function Free(g: seq<seq<int>>, w: nat, h: nat): set<Pos>
    requires IsGrid(g, w, h)
  {
    CellsWith(g, w, h, EMPTY)
  }

  /** The cells reachable from `s` through free cells. */
  ghost function ReachableFrom(g: seq<seq<int>>, w: nat, h: nat, s: Pos): set<Pos>
    requires IsGrid(g, w, h)
  {
    set q | q in AllCells(w, h) && Reachable(Free(g, w, h), s, q)
  }

  /** The scratch table marks exactly the cells of `closed` with 5. */
  ghost predicate Marks(g: seq<seq<int>>, out: seq<seq<int>>, w: nat, h: nat, closed: set<Pos>)
    requires IsGrid(g, w, h) && IsGrid(out, w, h)
  {
    forall q :: InGrid(w, h, q) ==> At(out, q) == if q in closed then SEEN else At(g, q)
  }

  /** Marking one more cell 5. */
  lemma StepMarks(g: seq<seq<int>>, out: seq<seq<int>>, w: nat, h: nat, closed: set<Pos>, p: Pos)
    requires IsGrid(g, w, h) && IsGrid(out, w, h) && InGrid(w, h, p) && Marks(g, out, w, h, closed)
    ensures IsGrid(Put(out, p, SEEN), w, h) && Marks(g, Put(out, p, SEEN), w, h, closed + {p})
  {
  }

  /** `d'` is `d` with the cells of `added` set to `v`. */
  ghost predicate DepthUpdate(d: seq<seq<int>>, d': seq<seq<int>>, w: nat, h: nat, added: seq<Pos>, v: int)
    requires IsGrid(d, w, h) && IsGrid(d', w, h)
  {
    forall q :: InGrid(w, h, q) ==> At(d', q) == if q in added then v else At(d, q)
  }

  /** Giving one more cell the depth extends the update by that cell. */
  lemma DepthExtend(d0: seq<seq<int>>, d: seq<seq<int>>, w: nat, h: nat, added: seq<Pos>, m: Pos, v: int)
    requires IsGrid(d0, w, h) && IsGrid(d, w, h) && InGrid(w, h, m)
    requires DepthUpdate(d0, d, w, h, added, v)
    ensures IsGrid(Put(d, m, v), w, h) && DepthUpdate(d0, Put(d, m, v), w, h, added + [m], v)
  {
  }

  /** Dequeuing a new cell of the table counts one more and leaves one fewer to go. */
  lemma OneMore(w: nat, h: nat, closed: set<Pos>, p: Pos)
    requires InGrid(w, h, p) && p !in closed
    ensures |closed + {p}| == |closed| + 1
    ensures |AllCells(w, h) - (closed + {p})| < |AllCells(w, h) - closed|
  {
    var rest := AllCells(w, h) - (closed + {p});
    assert AllCells(w, h) - closed == rest + {p} && p !in rest;
  }
}
