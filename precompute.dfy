/** The two tables the constructor precomputes once the exit is known
    (`__precompute_H_values` and `__precompute_binary_map`, projekt.py:86-99). */
module Precompute {
  import opened Grid

  /** `__precompute_H_values`: every cell gets its squared distance to the exit. */
  method HeuristicTable(w: nat, h: nat, exit: Pos) returns (t: seq<seq<int>>)
    ensures IsGrid(t, w, h)
    ensures forall q :: InGrid(w, h, q) ==> At(t, q) == HValue(exit, q)
  {
    t := Filled(w, h, 0);
    for y := 0 to h
      invariant IsGrid(t, w, h)
      invariant forall q :: InGrid(w, y, q) ==> At(t, q) == HValue(exit, q)
    {
      for x := 0 to w
        invariant IsGrid(t, w, h)
        invariant forall q :: InGrid(w, y, q) ==> At(t, q) == HValue(exit, q)
        invariant forall q :: InGrid(x, h, q) && q.y == y ==> At(t, q) == HValue(exit, q)
      {
        t := Put(t, Pos(x, y), HValue(exit, Pos(x, y)));
      }
    }
  }

  /** The table is zero exactly at the exit and positive everywhere else. */
  lemma HeuristicTableZeroOnlyAtExit(t: seq<seq<int>>, w: nat, h: nat, exit: Pos)
    requires IsGrid(t, w, h) && forall q :: InGrid(w, h, q) ==> At(t, q) == HValue(exit, q)
    ensures forall q :: InGrid(w, h, q) ==> At(t, q) >= 0 && (At(t, q) == 0 <==> q == exit)
  {
    forall q | InGrid(w, h, q)
      ensures At(t, q) >= 0 && (At(t, q) == 0 <==> q == exit)
    {
      HValueZeroOnlyAtExit(exit, q);
    }
  }

  /** Row-major order: by row, then by column. */
  predicate Before(p: Pos, q: Pos)
  {
    p.y < q.y || (p.y == q.y && p.x < q.x)
  }

  /** `__precompute_binary_map`: the cells holding 0 (empty, neither entrance nor exit
      once those are marked), each once, in row-major order. Gene position `i` of the
      occupancy encoding stands for cell `cells[i]`. */
  method BlankCells(g: seq<seq<int>>, w: nat, h: nat) returns (cells: seq<Pos>)
    requires IsGrid(g, w, h)
    ensures forall i :: 0 <= i < |cells| ==> InGrid(w, h, cells[i]) && At(g, cells[i]) == EMPTY
    ensures forall q :: InGrid(w, h, q) && At(g, q) == EMPTY ==> q in cells
    ensures forall i, j :: 0 <= i < j < |cells| ==> Before(cells[i], cells[j])
  {
    cells := [];
    for y := 0 to h
      invariant forall i :: 0 <= i < |cells| ==> InGrid(w, h, cells[i]) && At(g, cells[i]) == EMPTY
      invariant forall i :: 0 <= i < |cells| ==> cells[i].y < y
      invariant forall q :: InGrid(w, y, q) && At(g, q) == EMPTY ==> q in cells
      invariant forall i, j :: 0 <= i < j < |cells| ==> Before(cells[i], cells[j])
    {
      for x := 0 to w
        invariant forall i :: 0 <= i < |cells| ==> InGrid(w, h, cells[i]) && At(g, cells[i]) == EMPTY
        invariant forall i :: 0 <= i < |cells| ==> Before(cells[i], Pos(x, y))
        invariant forall q :: InGrid(w, y, q) && At(g, q) == EMPTY ==> q in cells
        invariant forall q :: InGrid(x, h, q) && q.y == y && At(g, q) == EMPTY ==> q in cells
        invariant forall i, j :: 0 <= i < j < |cells| ==> Before(cells[i], cells[j])
      {
        if At(g, Pos(x, y)) == EMPTY {
          cells := cells + [Pos(x, y)];
        }
      }
    }
  }
}
