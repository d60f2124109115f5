/** Cells, coordinates and two-dimensional tables of the labyrinth.
    A table is a list of rows, indexed `g[y][x]`, as the labyrinth class keeps it. */
module Grid {

  /** A cell coordinate `(x, y)`: column, then row. */
  datatype Pos = Pos(x: int, y: int)

  /** Cell states of the labyrinth and of its overlays. */
  const EMPTY := 0
  const WALL := 1
  const START := 2
  const EXIT := 3
  const PATH := 4
  const SEEN := 5

  /** `g` has `h` rows of `w` cells each. */
  predicate IsGrid(g: seq<seq<int>>, w: nat, h: nat)
  {
    |g| == h && forall y :: 0 <= y < h ==> |g[y]| == w
  }

  predicate InGrid(w: int, h: int, p: Pos)
  {
    0 <= p.x < w && 0 <= p.y < h
  }

  function At(g: seq<seq<int>>, p: Pos): int
    requires 0 <= p.y < |g| && 0 <= p.x < |g[p.y]|
  {
    g[p.y][p.x]
  }

  /** The table `g` with cell `p` set to `v`. */
  function Put(g: seq<seq<int>>, p: Pos, v: int): (r: seq<seq<int>>)
    requires 0 <= p.y < |g| && 0 <= p.x < |g[p.y]|
    ensures |r| == |g| && forall y :: 0 <= y < |g| ==> |r[y]| == |g[y]|
    ensures At(r, p) == v
    ensures forall q: Pos :: 0 <= q.y < |g| && 0 <= q.x < |g[q.y]| && q != p ==> At(r, q) == At(g, q)
  {
    g[p.y := g[p.y][p.x := v]]
  }

  /** A `w` by `h` table whose every cell holds `v` (`[[v] * w for i in range(h)]`). */
  function Filled(w: nat, h: nat, v: int): (r: seq<seq<int>>)
    ensures IsGrid(r, w, h)
    ensures forall q :: InGrid(w, h, q) ==> At(r, q) == v
  {
    seq(h, _ => seq(w, _ => v))
  }

  /** The four neighbours in the fixed order the searches try them: +x, -x, +y, -y. */
  function Neighbours(p: Pos): seq<Pos>
  {
    [Pos(p.x + 1, p.y), Pos(p.x - 1, p.y), Pos(p.x, p.y + 1), Pos(p.x, p.y - 1)]
  }

  predicate Adjacent(p: Pos, q: Pos)
  {
    q in Neighbours(p)
  }

  lemma AdjacentSymmetric(p: Pos, q: Pos)
    requires Adjacent(p, q)
    ensures Adjacent(q, p)
  {
  }

  /** Every coordinate of a `w` by `h` table. */
  function AllCells(w: int, h: int): (s: set<Pos>)
    ensures forall q :: q in s <==> InGrid(w, h, q)
  {
    var s := set x, y | 0 <= x < w && 0 <= y < h :: Pos(x, y);
    assert forall q :: InGrid(w, h, q) ==> Pos(q.x, q.y) in s;
    s
  }

  /** The cells of `g` that hold `v`. */
  function CellsWith(g: seq<seq<int>>, w: nat, h: nat, v: int): (s: set<Pos>)
    requires IsGrid(g, w, h)
    ensures forall q :: q in s <==> InGrid(w, h, q) && At(g, q) == v
  {
    set q | q in AllCells(w, h) && At(g, q) == v
  }

  /** The cells of an overlay that a search has dequeued: marked visited or on the path. */
  function Explored(g: seq<seq<int>>, w: nat, h: nat): (s: set<Pos>)
    requires IsGrid(g, w, h)
    ensures forall q :: q in s <==> InGrid(w, h, q) && (At(g, q) == PATH || At(g, q) == SEEN)
  {
    set q | q in AllCells(w, h) && (At(g, q) == PATH || At(g, q) == SEEN)
  }

  /** Squared Euclidean distance from `p` to the exit `e` (projekt.py:89). */
  function HValue(e: Pos, p: Pos): int
  {
    (e.x - p.x) * (e.x - p.x) + (e.y - p.y) * (e.y - p.y)
  }

  lemma HValueZeroOnlyAtExit(e: Pos, p: Pos)
    ensures HValue(e, p) >= 0
    ensures HValue(e, p) == 0 <==> p == e
  {
    var a, b := e.x - p.x, e.y - p.y;
    assert a * a >= 0 && b * b >= 0;
    if a != 0 {
      assert a * a > 0;
    }
    if b != 0 {
      assert b * b > 0;
    }
  }
}

/** A value that may be missing (Python's `None`). */
module Wrappers {
  datatype Option<T> = None | Some(value: T)
}
