/** Four-neighbour walks through a set of cells, and the two facts every search in the
    labyrinth needs about them: a set closed under stepping contains every walk that
    starts in it, and a depth table whose cells all have a parent one step shallower
    yields a walk of that depth. */
module Paths {
  import opened Grid

  /** A walk: at least one cell, every cell in `cells`, consecutive cells adjacent. */
  ghost predicate PathWithin(cells: set<Pos>, path: seq<Pos>)
  {
    && |path| >= 1
    && (forall i :: 0 <= i < |path| ==> path[i] in cells)
    && (forall i :: 0 <= i < |path| - 1 ==> Adjacent(path[i], path[i + 1]))
  }

  ghost predicate PathFromTo(cells: set<Pos>, path: seq<Pos>, s: Pos, t: Pos)
  {
    PathWithin(cells, path) && path[0] == s && path[|path| - 1] == t
  }

  /** `t` can be reached from `s` by stepping through `cells` only. */
  ghost predicate Reachable(cells: set<Pos>, s: Pos, t: Pos)
  {
    exists path :: PathFromTo(cells, path, s, t)
  }

  /** Every step out of `closed` that stays inside `cells` lands in `closed` again. */
  ghost predicate ClosedUnderSteps(cells: set<Pos>, closed: set<Pos>)
  {
    forall c, n :: c in closed && n in Neighbours(c) && n in cells ==> n in closed
  }

  /** A walk through `cells` that starts in a step-closed set never leaves it. */
  lemma {:induction false} ClosedSetHoldsPath(cells: set<Pos>, closed: set<Pos>, path: seq<Pos>)
    requires PathWithin(cells, path) && path[0] in closed
    requires ClosedUnderSteps(cells, closed)
    ensures path[|path| - 1] in closed
  {
    if |path| > 1 {
      var prefix := path[..|path| - 1];
      assert PathWithin(cells, prefix);
      ClosedSetHoldsPath(cells, closed, prefix);
      assert Adjacent(path[|path| - 2], path[|path| - 1]);
    }
  }

  /** Reachability extends by one step into `cells`. */
  lemma ReachableStep(cells: set<Pos>, s: Pos, c: Pos, n: Pos)
    requires Reachable(cells, s, c) && n in Neighbours(c) && n in cells
    ensures Reachable(cells, s, n)
  {
    var path :| PathFromTo(cells, path, s, c);
    var longer := path + [n];
    assert PathFromTo(cells, longer, s, n);
  }

  lemma ReachableSelf(cells: set<Pos>, s: Pos)
    requires s in cells
    ensures Reachable(cells, s, s)
  {
    assert PathFromTo(cells, [s], s, s);
  }

  /** The depth table `d` bounds the length of walks: every cell of `closed` has its
      neighbours in `cells` inside `closed` at most one deeper. */
  ghost predicate DepthClosed(cells: set<Pos>, closed: set<Pos>, d: seq<seq<int>>, w: nat, h: nat)
    requires IsGrid(d, w, h)
  {
    forall c, n :: c in closed && n in Neighbours(c) && n in cells ==>
      InGrid(w, h, c) && InGrid(w, h, n) && n in closed && At(d, n) <= At(d, c) + 1
  }

  /** A walk of `k` steps that starts at depth 0 inside a depth-closed set ends at a
      cell of depth at most `k`: breadth-first depths are shortest distances. */
  lemma {:induction false} DepthBoundsPath(cells: set<Pos>, closed: set<Pos>, d: seq<seq<int>>,
                                           w: nat, h: nat, path: seq<Pos>)
    requires IsGrid(d, w, h) && DepthClosed(cells, closed, d, w, h)
    requires PathWithin(cells, path) && path[0] in closed
    requires InGrid(w, h, path[0]) && At(d, path[0]) == 0
    ensures InGrid(w, h, path[|path| - 1]) && path[|path| - 1] in closed
    ensures At(d, path[|path| - 1]) <= |path| - 1
  {
    if |path| > 1 {
      var prefix := path[..|path| - 1];
      assert PathWithin(cells, prefix);
      DepthBoundsPath(cells, closed, d, w, h, prefix);
      assert Adjacent(path[|path| - 2], path[|path| - 1]);
    }
  }

  /** Every cell of `reached` other than `s` has a neighbour in `reached` exactly one
      shallower, and only `s` has depth 0. */
  ghost predicate ParentChained(cells: set<Pos>, reached: set<Pos>, d: seq<seq<int>>, w: nat, h: nat, s: Pos)
    requires IsGrid(d, w, h)
  {
    forall c :: c in reached ==>
      && c in cells && InGrid(w, h, c) && At(d, c) >= 0
      && (At(d, c) == 0 ==> c == s)
      && (At(d, c) > 0 ==> HasParent(reached, d, w, h, c))
  }

  ghost predicate HasParent(reached: set<Pos>, d: seq<seq<int>>, w: nat, h: nat, c: Pos)
    requires IsGrid(d, w, h) && InGrid(w, h, c)
  {
    exists n :: n in Neighbours(c) && n in reached && InGrid(w, h, n) && At(d, n) == At(d, c) - 1
  }

  /** Following parents back from `c` gives a walk from `s` of exactly `d[c]` steps. */
  lemma {:induction false} WalkBack(cells: set<Pos>, reached: set<Pos>, d: seq<seq<int>>,
                                    w: nat, h: nat, s: Pos, c: Pos) returns (path: seq<Pos>)
    requires IsGrid(d, w, h) && ParentChained(cells, reached, d, w, h, s)
    requires c in reached
    ensures PathFromTo(cells, path, s, c) && |path| == At(d, c) + 1
    decreases At(d, c)
  {
    if At(d, c) == 0 {
      path := [c];
    } else {
      var n :| n in Neighbours(c) && n in reached && InGrid(w, h, n) && At(d, n) == At(d, c) - 1;
      var prefix := WalkBack(cells, reached, d, w, h, s, n);
      AdjacentSymmetric(c, n);
      path := Extend(cells, prefix, c);
    }
  }

  /** A walk extended by one adjacent cell of `cells` is a walk. */
  lemma Extend(cells: set<Pos>, path: seq<Pos>, c: Pos) returns (longer: seq<Pos>)
    requires PathWithin(cells, path) && c in cells && Adjacent(path[|path| - 1], c)
    ensures longer == path + [c] && PathWithin(cells, longer)
    ensures longer[0] == path[0] && longer[|longer| - 1] == c && |longer| == |path| + 1
  {
    longer := path + [c];
  }

  /** The reverse of a walk is a walk. */
  function Reverse(path: seq<Pos>): (r: seq<Pos>)
    ensures |r| == |path|
    ensures forall i :: 0 <= i < |path| ==> r[i] == path[|path| - 1 - i]
  {
    if path == [] then [] else Reverse(path[1..]) + [path[0]]
  }

  lemma ReversePath(cells: set<Pos>, path: seq<Pos>)
    requires PathWithin(cells, path)
    ensures PathWithin(cells, Reverse(path))
  {
    var r := Reverse(path);
    forall i | 0 <= i < |r| - 1
      ensures Adjacent(r[i], r[i + 1])
    {
      AdjacentSymmetric(path[|path| - 2 - i], path[|path| - 1 - i]);
    }
  }
}
