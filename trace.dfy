/** The reconstruction loop both searches end with (projekt.py:232-249 and 303-317):
    starting at the exit, mark the current cell 4 and, unless it is the start, step to
    the first neighbour (in the order +x, -x, +y, -y) that is still marked 5 and has a
    smaller value in the search's `visited` table. */
module Trace {
  import opened Grid
  import opened Paths

  /** `m` is a neighbour the loop may step to from `p`. */
  predicate Descends(out: seq<seq<int>>, v: seq<seq<int>>, w: nat, h: nat, p: Pos, m: Pos)
    requires IsGrid(out, w, h) && IsGrid(v, w, h) && InGrid(w, h, p)
  {
    0 <= m.x < w && 0 <= m.y < h && At(out, m) == SEEN && At(v, m) < At(v, p)
  }

  /** `m` is the first neighbour of `p` the loop may step to. */
  ghost predicate FirstDescent(out: seq<seq<int>>, v: seq<seq<int>>, w: nat, h: nat, p: Pos, m: Pos)
    requires IsGrid(out, w, h) && IsGrid(v, w, h) && InGrid(w, h, p)
  {
    exists k :: 0 <= k < 4 && Neighbours(p)[k] == m && Descends(out, v, w, h, p, m)
      && forall j :: 0 <= j < k ==> !Descends(out, v, w, h, p, Neighbours(p)[j])
  }

  /** What a search leaves behind for the loop to end: every cell marked 5, and the exit,
      has a value of at least 0 and, unless it is the start, a neighbour to step to.
      Without that the loop would never end. */
  ghost predicate Chained(out: seq<seq<int>>, v: seq<seq<int>>, w: nat, h: nat, start: Pos, exit: Pos)
    requires IsGrid(out, w, h) && IsGrid(v, w, h)
  {
    && InGrid(w, h, start) && InGrid(w, h, exit)
    && forall c :: InGrid(w, h, c) && (c == exit || At(out, c) == SEEN) ==>
         At(v, c) >= 0 && (c != start ==> exists n :: n in Neighbours(c) && Descends(out, v, w, h, c, n))
  }

  /** The move loop of one reconstruction step. */
  method Descend(out: seq<seq<int>>, v: seq<seq<int>>, w: nat, h: nat, p: Pos) returns (m: Pos)
    requires IsGrid(out, w, h) && IsGrid(v, w, h) && InGrid(w, h, p)
    requires exists n :: n in Neighbours(p) && Descends(out, v, w, h, p, n)
    ensures FirstDescent(out, v, w, h, p, m)
  {
    var moves := Neighbours(p);
    var k := 0;
    while !Descends(out, v, w, h, p, moves[k])
      invariant 0 <= k < 4
      invariant forall j :: 0 <= j < k ==> !Descends(out, v, w, h, p, moves[j])
      decreases 4 - k
    {
      k := k + 1;
    }
    m := moves[k];
  }

  /** Marking cells whose value is at least `v[p]` changes no step out of `p`. */
  lemma DescentsAgree(out0: seq<seq<int>>, out: seq<seq<int>>, v: seq<seq<int>>, w: nat, h: nat,
                      p: Pos, trail: seq<Pos>)
    requires IsGrid(out0, w, h) && IsGrid(out, w, h) && IsGrid(v, w, h) && InGrid(w, h, p)
    requires forall q :: InGrid(w, h, q) && q !in trail ==> At(out, q) == At(out0, q)
    requires forall i :: 0 <= i < |trail| ==> InGrid(w, h, trail[i]) && At(v, trail[i]) >= At(v, p)
    ensures forall m :: Descends(out, v, w, h, p, m) == Descends(out0, v, w, h, p, m)
  {
  }

  /** The walk the loop follows, exit first: neighbouring cells, every step the first
      one the loop may take on the table the search left, values strictly falling. */
  ghost predicate Trail(out0: seq<seq<int>>, v: seq<seq<int>>, w: nat, h: nat, trail: seq<Pos>)
    requires IsGrid(out0, w, h) && IsGrid(v, w, h)
  {
    && (forall i :: 0 <= i < |trail| ==> InGrid(w, h, trail[i]))
    && (forall i :: 0 < i < |trail| ==> At(out0, trail[i]) == SEEN)
    && (forall i :: 0 <= i < |trail| - 1 ==> FirstDescent(out0, v, w, h, trail[i], trail[i + 1]))
  }

  /** `out` is `out0` with the cells of `trail` marked 4. */
  ghost predicate Marked(out0: seq<seq<int>>, out: seq<seq<int>>, w: nat, h: nat, trail: seq<Pos>)
    requires IsGrid(out0, w, h) && IsGrid(out, w, h)
  {
    forall q :: InGrid(w, h, q) ==> At(out, q) == if q in trail then PATH else At(out0, q)
  }

  /** The state of the reconstruction loop: `trail` is marked, `p` comes next and lies
      below every cell of `trail`. */
  ghost predicate TraceInv(out0: seq<seq<int>>, v: seq<seq<int>>, w: nat, h: nat, exit: Pos,
                           out: seq<seq<int>>, trail: seq<Pos>, p: Pos)
    requires IsGrid(out0, w, h) && IsGrid(v, w, h)
  {
    && IsGrid(out, w, h) && InGrid(w, h, p) && (p == exit || At(out0, p) == SEEN)
    && (|trail| == 0 ==> p == exit)
    && Trail(out0, v, w, h, trail)
    && (|trail| > 0 ==> trail[0] == exit && FirstDescent(out0, v, w, h, trail[|trail| - 1], p))
    && (forall i :: 0 <= i < |trail| ==> At(v, trail[i]) > At(v, p))
    && Marked(out0, out, w, h, trail)
  }

  lemma TrailExtend(out0: seq<seq<int>>, v: seq<seq<int>>, w: nat, h: nat, trail: seq<Pos>, p: Pos)
    requires IsGrid(out0, w, h) && IsGrid(v, w, h) && Trail(out0, v, w, h, trail) && InGrid(w, h, p)
    requires |trail| > 0 ==> At(out0, p) == SEEN && FirstDescent(out0, v, w, h, trail[|trail| - 1], p)
    ensures Trail(out0, v, w, h, trail + [p])
  {
    var trail' := trail + [p];
    forall i | 0 <= i < |trail'| - 1
      ensures FirstDescent(out0, v, w, h, trail'[i], trail'[i + 1])
    {
      if i < |trail| - 1 {
        assert trail'[i] == trail[i] && trail'[i + 1] == trail[i + 1];
      }
    }
  }

  lemma MarkedExtend(out0: seq<seq<int>>, out: seq<seq<int>>, w: nat, h: nat, trail: seq<Pos>, p: Pos)
    requires IsGrid(out0, w, h) && IsGrid(out, w, h) && Marked(out0, out, w, h, trail) && InGrid(w, h, p)
    ensures IsGrid(Put(out, p, PATH), w, h) && Marked(out0, Put(out, p, PATH), w, h, trail + [p])
  {
  }

  /** Marking `p` extends the marked walk by `p`, and leaves the steps out of `p` as the
      search left them; unless `p` is the start there is one. */
  lemma MarkStep(out0: seq<seq<int>>, v: seq<seq<int>>, w: nat, h: nat, start: Pos, exit: Pos,
                 out: seq<seq<int>>, trail: seq<Pos>, p: Pos)
    requires IsGrid(out0, w, h) && IsGrid(v, w, h) && Chained(out0, v, w, h, start, exit)
    requires TraceInv(out0, v, w, h, exit, out, trail, p)
    ensures IsGrid(Put(out, p, PATH), w, h) && Marked(out0, Put(out, p, PATH), w, h, trail + [p])
    ensures Trail(out0, v, w, h, trail + [p]) && (trail + [p])[0] == exit
    ensures forall m :: Descends(Put(out, p, PATH), v, w, h, p, m) == Descends(out0, v, w, h, p, m)
    ensures p != start ==> exists n :: n in Neighbours(p) && Descends(Put(out, p, PATH), v, w, h, p, n)
  {
    var trail' := trail + [p];
    TrailExtend(out0, v, w, h, trail, p);
    MarkedExtend(out0, out, w, h, trail, p);
    assert forall i :: 0 <= i < |trail| ==> trail'[i] == trail[i];
    DescentsAgree(out0, Put(out, p, PATH), v, w, h, p, trail');
  }

  /** Two tables that agree on every step out of `p` agree on the first one. */
  lemma DescentTransfer(out: seq<seq<int>>, out0: seq<seq<int>>, v: seq<seq<int>>, w: nat, h: nat, p: Pos, m: Pos)
    requires IsGrid(out, w, h) && IsGrid(out0, w, h) && IsGrid(v, w, h) && InGrid(w, h, p)
    requires forall n :: Descends(out, v, w, h, p, n) == Descends(out0, v, w, h, p, n)
    requires FirstDescent(out, v, w, h, p, m)
    ensures FirstDescent(out0, v, w, h, p, m)
  {
    var k :| 0 <= k < 4 && Neighbours(p)[k] == m && Descends(out, v, w, h, p, m)
      && forall j :: 0 <= j < k ==> !Descends(out, v, w, h, p, Neighbours(p)[j]);
    assert forall j :: 0 <= j < k ==> !Descends(out0, v, w, h, p, Neighbours(p)[j]);
  }

  lemma TrailBelow(v: seq<seq<int>>, w: nat, h: nat, trail: seq<Pos>, p: Pos)
    requires IsGrid(v, w, h) && InGrid(w, h, p)
    requires forall i :: 0 <= i < |trail| ==> InGrid(w, h, trail[i]) && At(v, trail[i]) > At(v, p)
    ensures forall i :: 0 <= i < |trail| + 1 ==> InGrid(w, h, (trail + [p])[i]) && At(v, (trail + [p])[i]) >= At(v, p)
  {
  }

  /** Stepping from the freshly marked `p` to its first descent `m` keeps the loop's
      state. */
  lemma TraceStep(out0: seq<seq<int>>, v: seq<seq<int>>, w: nat, h: nat, exit: Pos,
                  out: seq<seq<int>>, trail: seq<Pos>, p: Pos, m: Pos)
    requires IsGrid(out0, w, h) && IsGrid(v, w, h) && IsGrid(out, w, h) && InGrid(w, h, p)
    requires |trail| > 0 && trail[0] == exit && trail[|trail| - 1] == p
    requires Trail(out0, v, w, h, trail) && Marked(out0, out, w, h, trail)
    requires forall i :: 0 <= i < |trail| ==> At(v, trail[i]) >= At(v, p)
    requires FirstDescent(out0, v, w, h, p, m)
    ensures TraceInv(out0, v, w, h, exit, out, trail, m) && At(v, m) < At(v, p)
  {
  }

  /** The reconstruction loop. It walks from the exit to the start along first
      descents, and marks exactly the cells of that walk 4. */
  method TraceBack(out0: seq<seq<int>>, v: seq<seq<int>>, w: nat, h: nat, start: Pos, exit: Pos)
    returns (out: seq<seq<int>>, ghost trail: seq<Pos>)
    requires IsGrid(out0, w, h) && IsGrid(v, w, h) && Chained(out0, v, w, h, start, exit)
    ensures IsGrid(out, w, h)
    ensures |trail| >= 1 && trail[0] == exit && trail[|trail| - 1] == start
    ensures Trail(out0, v, w, h, trail)
    ensures forall q :: InGrid(w, h, q) ==> At(out, q) == if q in trail then PATH else At(out0, q)
  {
    out := out0;
    trail := [];
    var p := exit;
    while true
      invariant TraceInv(out0, v, w, h, exit, out, trail, p)
      decreases At(v, p)
    {
      MarkStep(out0, v, w, h, start, exit, out, trail, p);
      var out' := Put(out, p, PATH);
      if p == start {
        out, trail := out', trail + [p];
        break;
      }
      var m := Descend(out', v, w, h, p);
      DescentTransfer(out', out0, v, w, h, p, m);
      TrailBelow(v, w, h, trail, p);
      TraceStep(out0, v, w, h, exit, out', trail + [p], p, m);
      out, trail, p := out', trail + [p], m;
    }
  }

  /** The values along the walk fall strictly from the exit to the start, whose value
      is at least 0, so the walk has at most `v[exit]` steps. */
  lemma {:induction false} TrailBound(out0: seq<seq<int>>, v: seq<seq<int>>, w: nat, h: nat,
                                       trail: seq<Pos>, i: nat)
    requires IsGrid(out0, w, h) && IsGrid(v, w, h) && Trail(out0, v, w, h, trail)
    requires i < |trail| && At(v, trail[|trail| - 1]) >= 0
    ensures At(v, trail[i]) >= |trail| - 1 - i
    decreases |trail| - i
  {
    if i < |trail| - 1 {
      TrailBound(out0, v, w, h, trail, i + 1);
      assert FirstDescent(out0, v, w, h, trail[i], trail[i + 1]);
    }
  }

  /** The walk, read from the start, is a walk through the cells it visits. */
  lemma TrailIsWalk(out0: seq<seq<int>>, v: seq<seq<int>>, w: nat, h: nat, trail: seq<Pos>, cells: set<Pos>)
    requires IsGrid(out0, w, h) && IsGrid(v, w, h) && Trail(out0, v, w, h, trail) && |trail| >= 1
    requires forall i :: 0 <= i < |trail| ==> trail[i] in cells
    ensures PathWithin(cells, trail)
  {
    forall i | 0 <= i < |trail| - 1
      ensures Adjacent(trail[i], trail[i + 1])
    {
      assert FirstDescent(out0, v, w, h, trail[i], trail[i + 1]);
    }
  }
}
