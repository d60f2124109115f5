/** Locating the entrance and the exit on the border (`__mark_entrances`,
    projekt.py:162-194). */
module Entrances {
  import opened Grid
  import opened Wrappers

  predicate OnBorder(w: nat, h: nat, p: Pos)
  {
    InGrid(w, h, p) && (p.x == 0 || p.x == w - 1 || p.y == 0 || p.y == h - 1)
  }

  /** The cell of visit `i` of the border scan: the top row left to right, then for
      every row its first and its last column, then the bottom row left to right.
      Corner cells (and, in a one-column maze, every cell) are visited more than once. */
  function BorderCell(w: nat, h: nat, i: nat): Pos
  {
    if i < w then Pos(i, 0)
    else if i < w + 2 * h then Pos(if (i - w) % 2 == 0 then 0 else w - 1, (i - w) / 2)
    else Pos(i - w - 2 * h, h - 1)
  }

  /** The first `n` visits of the border scan. */
  function ScanPrefix(w: nat, h: nat, n: nat): (r: seq<Pos>)
    ensures |r| == n && forall i :: 0 <= i < n ==> r[i] == BorderCell(w, h, i)
  {
    if n == 0 then [] else ScanPrefix(w, h, n - 1) + [BorderCell(w, h, n - 1)]
  }

  /** All the visits of the border scan, in order. */
  function ScanOrder(w: nat, h: nat): (r: seq<Pos>)
    ensures |r| == 2 * w + 2 * h && forall i :: 0 <= i < |r| ==> r[i] == BorderCell(w, h, i)
  {
    ScanPrefix(w, h, 2 * w + 2 * h)
  }

  lemma ScanOrderSide(w: nat, h: nat, y: nat, k: nat)
    requires y < h && k < 2
    ensures BorderCell(w, h, w + 2 * y + k) == Pos(if k == 0 then 0 else w - 1, y)
  {
    var i := w + 2 * y + k;
    assert (i - w) % 2 == k && (i - w) / 2 == y;
  }

  /** Every visited cell lies on the border of the table. */
  lemma ScanOrderOnBorder(w: nat, h: nat, i: nat)
    requires w >= 1 && h >= 1 && i < 2 * w + 2 * h
    ensures OnBorder(w, h, ScanOrder(w, h)[i])
  {
    if w <= i < w + 2 * h {
      ScanOrderSide(w, h, (i - w) / 2, (i - w) % 2);
    }
  }

  /** Every cell of `ps` lies in the `w` by `h` table. */
  predicate Inside(w: nat, h: nat, ps: seq<Pos>)
  {
    forall k :: 0 <= k < |ps| ==> 0 <= ps[k].x < w && 0 <= ps[k].y < h
  }

  lemma ScanOrderAllOnBorder(w: nat, h: nat)
    requires w >= 1 && h >= 1
    ensures forall i :: 0 <= i < 2 * w + 2 * h ==> OnBorder(w, h, ScanOrder(w, h)[i])
  {
    forall i | 0 <= i < 2 * w + 2 * h
      ensures OnBorder(w, h, ScanOrder(w, h)[i])
    {
      ScanOrderOnBorder(w, h, i);
    }
  }

  lemma ScanOrderInside(w: nat, h: nat)
    requires w >= 1 && h >= 1
    ensures Inside(w, h, ScanOrder(w, h))
  {
    forall i | 0 <= i < 2 * w + 2 * h
      ensures InGrid(w, h, ScanOrder(w, h)[i])
    {
      ScanOrderOnBorder(w, h, i);
    }
  }

  /** The visits of the first scan order that find an empty cell of `g`. */
  function BorderVisits(g: seq<seq<int>>, w: nat, h: nat): (r: seq<bool>)
    requires w >= 1 && h >= 1 && IsGrid(g, w, h)
    ensures |r| == 2 * w + 2 * h
    ensures forall i :: 0 <= i < 2 * w + 2 * h ==>
      InGrid(w, h, ScanOrder(w, h)[i]) && r[i] == (At(g, ScanOrder(w, h)[i]) == EMPTY)
  {
    ScanOrderInside(w, h);
    EmptyVisits(g, w, h, ScanOrder(w, h))
  }

  /** For every visit of `ps`, whether it finds an empty cell. */
  function EmptyVisits(g: seq<seq<int>>, w: nat, h: nat, ps: seq<Pos>): (r: seq<bool>)
    requires IsGrid(g, w, h) && Inside(w, h, ps)
    ensures |r| == |ps| && forall i :: 0 <= i < |ps| ==> r[i] == (At(g, ps[i]) == EMPTY)
  {
    if ps == [] then [] else EmptyVisits(g, w, h, ps[..|ps| - 1]) + [At(g, ps[|ps| - 1]) == EMPTY]
  }

  /** What the scan has found so far: the entrance and the exit, each possibly missing. */
  datatype Found = Found(start: Option<Pos>, exit: Option<Pos>)

  /** One visit of `p`: an empty cell becomes the entrance if none was found yet,
      otherwise it replaces the exit. */
  function Visit(f: Found, p: Pos, empty: bool): Found
  {
    if !empty then f
    else if f.start.None? then f.(start := Some(p))
    else f.(exit := Some(p))
  }

  /** The scan over the first `n` cells of `ps`; `empty[i]` tells whether `ps[i]` is empty. */
  function Scan(ps: seq<Pos>, empty: seq<bool>, n: nat): Found
    requires |ps| == |empty| && n <= |ps|
  {
    if n == 0 then Found(None, None)
    else Visit(Scan(ps, empty, n - 1), ps[n - 1], empty[n - 1])
  }

  /** Visit `i` is the first of the first `n` that finds an empty cell. */
  predicate FirstEmptyAt(empty: seq<bool>, n: nat, i: int)
    requires n <= |empty|
  {
    0 <= i < n && empty[i] && forall j :: 0 <= j < i ==> !empty[j]
  }

  /** Visit `i` is the last of the first `n` that finds an empty cell. */
  predicate LastEmptyAt(empty: seq<bool>, n: nat, i: int)
    requires n <= |empty|
  {
    0 <= i < n && empty[i] && forall j :: i < j < n ==> !empty[j]
  }

  predicate SomeEmpty(empty: seq<bool>, n: nat)
    requires n <= |empty|
  {
    exists i :: 0 <= i < n && empty[i]
  }

  /** At least two of the first `n` visits find an empty cell (possibly the same
      corner cell twice). */
  predicate TwoEmpty(empty: seq<bool>, n: nat)
    requires n <= |empty|
  {
    exists i, j :: 0 <= i < j < n && empty[i] && empty[j]
  }

  /** The scan's entrance is the cell of the first visit that finds an empty cell,
      present exactly when some visit does. */
  lemma {:induction false} ScanFindsFirst(ps: seq<Pos>, empty: seq<bool>, n: nat)
    requires |ps| == |empty| && n <= |ps|
    ensures Scan(ps, empty, n).start.Some? <==> SomeEmpty(empty, n)
    ensures Scan(ps, empty, n).start.Some? ==>
      exists i :: FirstEmptyAt(empty, n, i) && ps[i] == Scan(ps, empty, n).start.value
  {
    if n > 0 {
      ScanFindsFirst(ps, empty, n - 1);
      var f := Scan(ps, empty, n - 1);
      if f.start.Some? {
        ghost var i :| FirstEmptyAt(empty, n - 1, i) && ps[i] == f.start.value;
        assert FirstEmptyAt(empty, n, i);
      } else if empty[n - 1] {
        assert FirstEmptyAt(empty, n, n - 1);
      }
    }
  }

  /** The scan's exit is the cell of the last visit that finds an empty cell, present
      exactly when two visits do. */
  lemma {:induction false} ScanFindsLast(ps: seq<Pos>, empty: seq<bool>, n: nat)
    requires |ps| == |empty| && n <= |ps|
    ensures Scan(ps, empty, n).exit.Some? <==> TwoEmpty(empty, n)
    ensures Scan(ps, empty, n).exit.Some? ==>
      exists i :: LastEmptyAt(empty, n, i) && ps[i] == Scan(ps, empty, n).exit.value
  {
    if n > 0 {
      ScanFindsLast(ps, empty, n - 1);
      ScanFindsFirst(ps, empty, n - 1);
      var f := Scan(ps, empty, n - 1);
      if !empty[n - 1] {
        if f.exit.Some? {
          var i :| LastEmptyAt(empty, n - 1, i) && ps[i] == f.exit.value;
          assert LastEmptyAt(empty, n, i);
        }
        if TwoEmpty(empty, n) {
          var i, j :| 0 <= i < j < n && empty[i] && empty[j];
          assert TwoEmpty(empty, n - 1);
        }
      } else if f.start.Some? {
        var i :| 0 <= i < n - 1 && empty[i];
        assert TwoEmpty(empty, n);
        assert LastEmptyAt(empty, n, n - 1);
      }
    }
  }

  /** Applies one visit the way the loops of `__mark_entrances` do. */
  method Look(g: seq<seq<int>>, w: nat, h: nat, start: Option<Pos>, exit: Option<Pos>, p: Pos)
    returns (start': Option<Pos>, exit': Option<Pos>)
    requires IsGrid(g, w, h) && InGrid(w, h, p)
    ensures Found(start', exit') == Visit(Found(start, exit), p, At(g, p) == EMPTY)
  {
    start', exit' := start, exit;
    if At(g, p) == EMPTY {
      if start.None? {
        start' := Some(p);
      } else {
        exit' := Some(p);
      }
    }
  }

  /** The loop over a horizontal edge: row `y`, left to right, makes visits `off` to
      `off + w - 1` of the scan. */
  method ScanRow(g: seq<seq<int>>, w: nat, h: nat, y: nat, off: nat, s0: Option<Pos>, e0: Option<Pos>)
    returns (s: Option<Pos>, e: Option<Pos>)
    requires w >= 1 && h >= 1 && IsGrid(g, w, h) && y < h
    requires off == 0 || off == w + 2 * h
    requires y == (if off == 0 then 0 else h - 1)
    requires Found(s0, e0) == Scan(ScanOrder(w, h), BorderVisits(g, w, h), off)
    ensures Found(s, e) == Scan(ScanOrder(w, h), BorderVisits(g, w, h), off + w)
  {
    ghost var order := ScanOrder(w, h);
    ghost var empty := BorderVisits(g, w, h);
    s, e := s0, e0;
    for x := 0 to w
      invariant Found(s, e) == Scan(order, empty, off + x)
    {
      s, e := Look(g, w, h, s, e, Pos(x, y));
    }
  }

  /** The loop over the side edges: row by row, its first and then its last column. */
  method ScanSides(g: seq<seq<int>>, w: nat, h: nat, s0: Option<Pos>, e0: Option<Pos>)
    returns (s: Option<Pos>, e: Option<Pos>)
    requires w >= 1 && h >= 1 && IsGrid(g, w, h)
    requires Found(s0, e0) == Scan(ScanOrder(w, h), BorderVisits(g, w, h), w)
    ensures Found(s, e) == Scan(ScanOrder(w, h), BorderVisits(g, w, h), w + 2 * h)
  {
    ghost var order := ScanOrder(w, h);
    ghost var empty := BorderVisits(g, w, h);
    s, e := s0, e0;
    for y := 0 to h
      invariant Found(s, e) == Scan(order, empty, w + 2 * y)
    {
      s, e := ScanSideRow(g, w, h, y, s, e);
    }
  }

  /** One row of the side loop: its first column, then its last. */
  method ScanSideRow(g: seq<seq<int>>, w: nat, h: nat, y: nat, s0: Option<Pos>, e0: Option<Pos>)
    returns (s: Option<Pos>, e: Option<Pos>)
    requires w >= 1 && h >= 1 && IsGrid(g, w, h) && y < h
    requires Found(s0, e0) == Scan(ScanOrder(w, h), BorderVisits(g, w, h), w + 2 * y)
    ensures Found(s, e) == Scan(ScanOrder(w, h), BorderVisits(g, w, h), w + 2 * y + 2)
  {
    ghost var order := ScanOrder(w, h);
    ghost var empty := BorderVisits(g, w, h);
    s, e := s0, e0;
    var columns := [0, w - 1];
    for k := 0 to 2
      invariant Found(s, e) == Scan(order, empty, w + 2 * y + k)
    {
      ScanOrderSide(w, h, y, k);
      s, e := Look(g, w, h, s, e, Pos(columns[k], y));
    }
  }

  /** The three loops of `__mark_entrances` over the border, in scan order. */
  method ScanBorder(g: seq<seq<int>>, w: nat, h: nat) returns (s: Option<Pos>, e: Option<Pos>)
    requires w >= 1 && h >= 1 && IsGrid(g, w, h)
    ensures Found(s, e) == Scan(ScanOrder(w, h), BorderVisits(g, w, h), 2 * w + 2 * h)
  {
    s, e := ScanRow(g, w, h, 0, 0, None, None);
    s, e := ScanSides(g, w, h, s, e);
    s, e := ScanRow(g, w, h, h - 1, w + 2 * h, s, e);
  }

  /** The table with 2 written at `start` and then 3 at `exit`. */
  function Mark(g: seq<seq<int>>, w: nat, h: nat, start: Pos, exit: Pos): (r: seq<seq<int>>)
    requires IsGrid(g, w, h) && InGrid(w, h, start) && InGrid(w, h, exit)
    ensures IsGrid(r, w, h)
    ensures At(r, exit) == EXIT
    ensures start != exit ==> At(r, start) == START
    ensures forall q :: InGrid(w, h, q) && q != start && q != exit ==> At(r, q) == At(g, q)
  {
    Put(Put(g, start, START), exit, EXIT)
  }

  /** `__mark_entrances`: the entrance is the first empty border cell in scan order and
      the exit the last one (not the second one); the table gets 2 at the entrance and
      then 3 at the exit. With fewer than two empty visits the source subscripts `None`,
      so at least two are required. */
  method MarkEntrances(g: seq<seq<int>>, w: nat, h: nat) returns (marked: seq<seq<int>>, start: Pos, exit: Pos)
    requires w >= 1 && h >= 1 && IsGrid(g, w, h)
    requires TwoEmpty(BorderVisits(g, w, h), 2 * w + 2 * h)
    ensures exists i :: FirstEmptyAt(BorderVisits(g, w, h), 2 * w + 2 * h, i)
                        && ScanOrder(w, h)[i] == start
    ensures exists i :: LastEmptyAt(BorderVisits(g, w, h), 2 * w + 2 * h, i)
                        && ScanOrder(w, h)[i] == exit
    ensures OnBorder(w, h, start) && OnBorder(w, h, exit)
    ensures At(g, start) == EMPTY && At(g, exit) == EMPTY
    ensures IsGrid(marked, w, h)
    ensures At(marked, exit) == EXIT
    ensures start != exit ==> At(marked, start) == START
    ensures forall q :: InGrid(w, h, q) && q != start && q != exit ==> At(marked, q) == At(g, q)
  {
    var s, e := ScanBorder(g, w, h);
    ghost var order := ScanOrder(w, h);
    ghost var empty := BorderVisits(g, w, h);
    ScanFindsFirst(order, empty, 2 * w + 2 * h);
    ScanFindsLast(order, empty, 2 * w + 2 * h);
    ScanOrderAllOnBorder(w, h);
    start, exit := s.value, e.value;
    marked := Mark(g, w, h, start, exit);
  }
}
