/** The three fitness functions over step chromosomes: `fit_collision_ends`
    (projekt.py:439-459), `fit_collision_stuns` (521-546) and `fit_collision_smart`
    (613-645). Each walks from the entrance one gene pair at a time. The walks are
    specified by the cells they step onto; the collision test is the intended one
    (`Steps.Blocked`), not the written one (see `Steps.BlockedAsWritten`). */
module Walkers {
  import opened Grid
  import opened Paths
  import opened Scratch
  import opened Steps

  /** The cells a `fit_collision_ends` walk from `p` steps onto. It stops before the
      first blocked move and right after a move onto the exit. Every non-empty cell
      blocks, the entrance (2) and the exit (3) included. */
  function EndsTrail(data: seq<seq<int>>, w: nat, h: nat, exit: Pos, p: Pos, gene: seq<int>): (trail: seq<Pos>)
    requires IsGrid(data, w, h) && |gene| % 2 == 0
    ensures |trail| <= |gene| / 2
    ensures forall k :: 0 <= k < |trail| ==> InGrid(w, h, trail[k]) && At(data, trail[k]) == EMPTY
    decreases |gene|
  {
    if |gene| == 0 then []
    else
      var q := Move(p, gene[0], gene[1]);
      if Blocked(data, w, h, q) then []
      else if q == exit then [q]
      else [q] + EndsTrail(data, w, h, exit, q, gene[2..])
  }

  /** The trail is a walk from `p` through empty cells. */
  lemma {:induction false} EndsWalk(data: seq<seq<int>>, w: nat, h: nat, exit: Pos, p: Pos, gene: seq<int>)
    requires IsGrid(data, w, h) && |gene| % 2 == 0
    ensures PathWithin(Free(data, w, h) + {p}, [p] + EndsTrail(data, w, h, exit, p, gene))
    decreases |gene|
  {
    var trail := EndsTrail(data, w, h, exit, p, gene);
    if |trail| > 0 {
      var q := Move(p, gene[0], gene[1]);
      assert trail[0] == q;
      var rest := EndsTrail(data, w, h, exit, q, gene[2..]);
      if q != exit {
        EndsWalk(data, w, h, exit, q, gene[2..]);
        assert trail == [q] + rest;
        assert Free(data, w, h) + {q} == Free(data, w, h);
        PrependStep(Free(data, w, h), p, [q] + rest);
      } else {
        PrependStep(Free(data, w, h), p, [q]);
      }
    }
  }

  /** A walk through `cells` extended at the front by a neighbour of its first cell. */
  lemma PrependStep(cells: set<Pos>, p: Pos, path: seq<Pos>)
    requires PathWithin(cells, path) && Adjacent(p, path[0])
    ensures PathWithin(cells + {p}, [p] + path)
  {
    var longer := [p] + path;
    forall i | 0 <= i < |longer| - 1
      ensures Adjacent(longer[i], longer[i + 1])
    {
      if i > 0 {
        assert longer[i] == path[i - 1] && longer[i + 1] == path[i];
      }
    }
    forall i | 0 <= i < |longer|
      ensures longer[i] in cells + {p}
    {
      if i > 0 {
        assert longer[i] == path[i - 1];
      }
    }
  }

  /** Because the exit holds 3, no `fit_collision_ends` walk from another cell ends on
      it, so the distance the function reports is at least 1. */
  lemma EndsStopShort(data: seq<seq<int>>, hv: seq<seq<int>>, w: nat, h: nat, exit: Pos, p: Pos, gene: seq<int>)
    requires IsGrid(data, w, h) && |gene| % 2 == 0 && InGrid(w, h, p) && p != exit
    requires InGrid(w, h, exit) && At(data, exit) == EXIT
    requires IsGrid(hv, w, h) && forall q :: InGrid(w, h, q) ==> At(hv, q) == HValue(exit, q)
    ensures exit !in EndsTrail(data, w, h, exit, p, gene)
    ensures Last(p, EndsTrail(data, w, h, exit, p, gene)) != exit
    ensures InGrid(w, h, Last(p, EndsTrail(data, w, h, exit, p, gene)))
    ensures At(hv, Last(p, EndsTrail(data, w, h, exit, p, gene))) >= 1
  {
    var trail := EndsTrail(data, w, h, exit, p, gene);
    var e := Last(p, trail);
    HValueZeroOnlyAtExit(exit, e);
  }

  /** `fit_collision_ends`: the squared distance of the cell the walk stops on, and the
      number of steps taken. */
  method FitEnds(data: seq<seq<int>>, hv: seq<seq<int>>, w: nat, h: nat, start: Pos, exit: Pos, gene: seq<int>)
    returns (dist: int, len: nat)
    requires IsGrid(data, w, h) && IsGrid(hv, w, h) && InGrid(w, h, start) && |gene| % 2 == 0
    ensures InGrid(w, h, Last(start, EndsTrail(data, w, h, exit, start, gene)))
    ensures len == |EndsTrail(data, w, h, exit, start, gene)|
    ensures dist == At(hv, Last(start, EndsTrail(data, w, h, exit, start, gene)))
  {
    ghost var trail := EndsTrail(data, w, h, exit, start, gene);
    var p := start;
    len := 0;
    ghost var done: seq<Pos> := [];
    var stopped := false;
    var k := 0;
    while k < |gene| / 2 && !stopped
      invariant k <= |gene| / 2 && len == |done|
      invariant EndsLoop(data, w, h, exit, start, gene, trail, k, p, done, stopped)
      decreases |gene| / 2 - k
    {
      p, len, stopped, done := EndsPair(data, w, h, exit, start, gene, trail, k, p, len, done);
      k := k + 1;
    }
    EndsFinal(data, w, h, exit, start, gene, trail, k, p, done, stopped);
    dist := At(hv, p);
  }

  /** The state of the `fit_collision_ends` loop before pair `k`: standing on `p` after
      stepping onto `done`, with the rest of the walk still to come, or stopped with
      the whole walk taken. */
  ghost predicate EndsLoop(data: seq<seq<int>>, w: nat, h: nat, exit: Pos, start: Pos, gene: seq<int>,
                           trail: seq<Pos>, k: nat, p: Pos, done: seq<Pos>, stopped: bool)
  {
    && IsGrid(data, w, h) && |gene| % 2 == 0 && k <= |gene| / 2
    && InGrid(w, h, p) && p == Last(start, done)
    && if stopped then trail == done
       else trail == done + EndsTrail(data, w, h, exit, p, gene[2 * k..])
  }

  /** One pair of the `fit_collision_ends` loop: a blocked move stops the walk, any
      other is taken, and a move onto the exit stops it after the step. */
  method EndsPair(data: seq<seq<int>>, w: nat, h: nat, exit: Pos, start: Pos, gene: seq<int>, ghost trail: seq<Pos>,
                  k: nat, p: Pos, len: nat, ghost done: seq<Pos>)
    returns (p': Pos, len': nat, stopped: bool, ghost done': seq<Pos>)
    requires EndsLoop(data, w, h, exit, start, gene, trail, k, p, done, false) && len == |done| && k < |gene| / 2
    ensures len' == |done'| && EndsLoop(data, w, h, exit, start, gene, trail, k + 1, p', done', stopped)
  {
    var i := 2 * k;
    EndsNext(data, w, h, exit, p, gene, k);
    var q := Move(p, gene[i], gene[i + 1]);
    if q.x < 0 || q.y < 0 || q.x >= w || q.y >= h || At(data, q) != EMPTY {
      assert trail == done + [];
      return p, len, true, done;
    }
    p', len', done' := q, len + 1, done + [q];
    Regroup(done, q, EndsTrail(data, w, h, exit, q, gene[i + 2..]));
    stopped := p' == exit;
  }

  /** When the `fit_collision_ends` loop ends, the whole walk is taken. */
  lemma EndsFinal(data: seq<seq<int>>, w: nat, h: nat, exit: Pos, start: Pos, gene: seq<int>, trail: seq<Pos>,
                  k: nat, p: Pos, done: seq<Pos>, stopped: bool)
    requires EndsLoop(data, w, h, exit, start, gene, trail, k, p, done, stopped) && (stopped || k == |gene| / 2)
    ensures InGrid(w, h, p) && p == Last(start, trail) && |done| == |trail|
  {
    if !stopped {
      EndsFinished(data, w, h, exit, p, gene, done);
    }
  }

  /** Pair `k` of a `fit_collision_ends` walk. */
  lemma EndsNext(data: seq<seq<int>>, w: nat, h: nat, exit: Pos, p: Pos, gene: seq<int>, k: nat)
    requires IsGrid(data, w, h) && |gene| % 2 == 0 && k < |gene| / 2
    ensures 2 * k + 1 < |gene| && |gene[2 * k..]| % 2 == 0 && |gene[2 * k + 2..]| % 2 == 0
    ensures var q := Move(p, gene[2 * k], gene[2 * k + 1]);
      EndsTrail(data, w, h, exit, p, gene[2 * k..]) ==
        if Blocked(data, w, h, q) then []
        else if q == exit then [q]
        else [q] + EndsTrail(data, w, h, exit, q, gene[2 * k + 2..])
  {
    assert gene[2 * k..][2..] == gene[2 * k + 2..];
  }

  /** Once every pair is read, the walk has nothing left to add. */
  lemma EndsFinished(data: seq<seq<int>>, w: nat, h: nat, exit: Pos, p: Pos, gene: seq<int>, done: seq<Pos>)
    requires IsGrid(data, w, h) && |gene| % 2 == 0
    ensures done + EndsTrail(data, w, h, exit, p, gene[2 * (|gene| / 2)..]) == done
  {
    assert gene[2 * (|gene| / 2)..] == [];
    assert done + [] == done;
  }

  lemma Regroup(done: seq<Pos>, q: Pos, rest: seq<Pos>)
    ensures done + ([q] + rest) == (done + [q]) + rest
    ensures done + [q] == (done + [q]) + []
  {
  }

  /** A `fit_collision_stuns` walk: the cells stepped onto and the number of blocked
      moves. */
  datatype Walk = Walk(trail: seq<Pos>, coll: nat)

  /** The walk of `fit_collision_stuns` from `p`: a blocked move is counted and the
      walker stays; a move onto the exit is taken whatever the exit holds, and ends the
      walk. Moving back onto the entrance is a collision, as it holds 2. */
  function Stuns(data: seq<seq<int>>, w: nat, h: nat, exit: Pos, p: Pos, gene: seq<int>): (r: Walk)
    requires IsGrid(data, w, h) && |gene| % 2 == 0
    ensures |r.trail| + r.coll <= |gene| / 2
    decreases |gene|
  {
    if |gene| == 0 then Walk([], 0)
    else
      var q := Move(p, gene[0], gene[1]);
      if q == exit then Walk([q], 0)
      else if Blocked(data, w, h, q) then
        var r := Stuns(data, w, h, exit, p, gene[2..]);
        Walk(r.trail, r.coll + 1)
      else
        var r := Stuns(data, w, h, exit, q, gene[2..]);
        Walk([q] + r.trail, r.coll)
  }

  /** Every cell of `trail` is the exit or an empty cell of the table. */
  predicate EmptyOrExit(data: seq<seq<int>>, w: nat, h: nat, exit: Pos, trail: seq<Pos>)
    requires IsGrid(data, w, h)
  {
    forall k :: 0 <= k < |trail| ==> trail[k] == exit || (InGrid(w, h, trail[k]) && At(data, trail[k]) == EMPTY)
  }

  /** A `fit_collision_stuns` walk steps onto empty cells and the exit only. */
  lemma {:induction false} StunsCells(data: seq<seq<int>>, w: nat, h: nat, exit: Pos, p: Pos, gene: seq<int>)
    requires IsGrid(data, w, h) && |gene| % 2 == 0
    ensures EmptyOrExit(data, w, h, exit, Stuns(data, w, h, exit, p, gene).trail)
    decreases |gene|
  {
    if |gene| > 0 {
      var q := Move(p, gene[0], gene[1]);
      if q != exit {
        if Blocked(data, w, h, q) {
          StunsCells(data, w, h, exit, p, gene[2..]);
          assert Stuns(data, w, h, exit, p, gene).trail == Stuns(data, w, h, exit, p, gene[2..]).trail;
        } else {
          StunsCells(data, w, h, exit, q, gene[2..]);
          var rest := Stuns(data, w, h, exit, q, gene[2..]).trail;
          var trail := Stuns(data, w, h, exit, p, gene).trail;
          assert trail == [q] + rest;
          forall k | 0 < k < |trail|
            ensures trail[k] == exit || (InGrid(w, h, trail[k]) && At(data, trail[k]) == EMPTY)
          {
            assert trail[k] == rest[k - 1];
          }
        }
      }
    }
  }

  /** Every pair is either a step or a collision until the exit is entered; the exit is
      entered at most once, as the last step. */
  lemma {:induction false} StunsCount(data: seq<seq<int>>, w: nat, h: nat, exit: Pos, p: Pos, gene: seq<int>)
    requires IsGrid(data, w, h) && |gene| % 2 == 0
    ensures var r := Stuns(data, w, h, exit, p, gene);
      exit !in r.trail ==> |r.trail| + r.coll == |gene| / 2
    ensures var r := Stuns(data, w, h, exit, p, gene);
      forall k :: 0 <= k < |r.trail| - 1 ==> r.trail[k] != exit
    decreases |gene|
  {
    if |gene| > 0 {
      var q := Move(p, gene[0], gene[1]);
      if q != exit {
        if Blocked(data, w, h, q) {
          StunsCount(data, w, h, exit, p, gene[2..]);
        } else {
          StunsCount(data, w, h, exit, q, gene[2..]);
          var rest := Stuns(data, w, h, exit, q, gene[2..]).trail;
          assert Stuns(data, w, h, exit, p, gene).trail == [q] + rest;
        }
      }
    }
  }

  /** The walk of `fit_collision_stuns` is a walk from `p` through empty cells and the
      exit. */
  lemma {:induction false} StunsWalk(data: seq<seq<int>>, w: nat, h: nat, exit: Pos, p: Pos, gene: seq<int>)
    requires IsGrid(data, w, h) && |gene| % 2 == 0
    ensures PathWithin(Free(data, w, h) + {exit} + {p}, [p] + Stuns(data, w, h, exit, p, gene).trail)
    decreases |gene|
  {
    var cells := Free(data, w, h) + {exit};
    var trail := Stuns(data, w, h, exit, p, gene).trail;
    if |gene| > 0 {
      var q := Move(p, gene[0], gene[1]);
      if q == exit {
        PrependStep(cells, p, [q]);
      } else if Blocked(data, w, h, q) {
        StunsWalk(data, w, h, exit, p, gene[2..]);
      } else {
        var rest := Stuns(data, w, h, exit, q, gene[2..]).trail;
        StunsWalk(data, w, h, exit, q, gene[2..]);
        assert trail == [q] + rest;
        assert cells + {q} == cells;
        PrependStep(cells, p, [q] + rest);
      }
    }
  }

  /** The squared distance `fit_collision_stuns` reports is 0 exactly when the walk
      entered the exit, and when it did not, every pair was spent on a step or a
      collision. */
  lemma StunsDistance(data: seq<seq<int>>, hv: seq<seq<int>>, w: nat, h: nat, exit: Pos, p: Pos, gene: seq<int>)
    requires IsGrid(data, w, h) && |gene| % 2 == 0 && InGrid(w, h, p) && p != exit && InGrid(w, h, exit)
    requires IsGrid(hv, w, h) && forall q :: InGrid(w, h, q) ==> At(hv, q) == HValue(exit, q)
    ensures var r := Stuns(data, w, h, exit, p, gene);
      InGrid(w, h, Last(p, r.trail)) && (At(hv, Last(p, r.trail)) == 0 <==> exit in r.trail)
    ensures var r := Stuns(data, w, h, exit, p, gene);
      At(hv, Last(p, r.trail)) != 0 ==> |r.trail| + r.coll == |gene| / 2
  {
    var r := Stuns(data, w, h, exit, p, gene);
    StunsCount(data, w, h, exit, p, gene);
    StunsCells(data, w, h, exit, p, gene);
    var e := Last(p, r.trail);
    HValueZeroOnlyAtExit(exit, e);
    if exit in r.trail {
      var k :| 0 <= k < |r.trail| && r.trail[k] == exit;
      assert k == |r.trail| - 1;
    }
  }

  /** `fit_collision_stuns`: the squared distance of the cell the walk ends on, the
      number of steps and the number of collisions. */
  method FitStuns(data: seq<seq<int>>, hv: seq<seq<int>>, w: nat, h: nat, start: Pos, exit: Pos, gene: seq<int>)
    returns (dist: int, len: nat, coll: nat)
    requires IsGrid(data, w, h) && IsGrid(hv, w, h) && InGrid(w, h, start) && InGrid(w, h, exit)
    requires |gene| % 2 == 0
    ensures InGrid(w, h, Last(start, Stuns(data, w, h, exit, start, gene).trail))
    ensures dist == At(hv, Last(start, Stuns(data, w, h, exit, start, gene).trail))
    ensures len == |Stuns(data, w, h, exit, start, gene).trail|
    ensures coll == Stuns(data, w, h, exit, start, gene).coll
  {
    ghost var walk := Stuns(data, w, h, exit, start, gene);
    var p := start;
    len, coll := 0, 0;
    ghost var done: seq<Pos> := [];
    var entered := false;
    var k := 0;
    while k < |gene| / 2 && !entered
      invariant k <= |gene| / 2 && len == |done|
      invariant StunsLoop(data, w, h, exit, start, gene, walk, k, p, done, coll, entered)
      decreases |gene| / 2 - k
    {
      p, len, coll, entered, done := StunsPair(data, w, h, exit, start, gene, walk, k, p, len, coll, done);
      k := k + 1;
    }
    StunsFinal(data, w, h, exit, start, gene, walk, k, p, done, coll, entered);
    dist := At(hv, p);
  }

  /** The state of the `fit_collision_stuns` loop before pair `k`: running, or ended in
      the exit with the whole walk taken. */
  ghost predicate StunsLoop(data: seq<seq<int>>, w: nat, h: nat, exit: Pos, start: Pos, gene: seq<int>,
                            walk: Walk, k: nat, p: Pos, done: seq<Pos>, coll: nat, entered: bool)
  {
    if entered then InGrid(w, h, p) && p == Last(start, done) && walk == Walk(done, coll)
    else StunsState(data, w, h, exit, start, gene, walk, k, p, done, coll)
  }

  /** When the `fit_collision_stuns` loop ends, the whole walk is taken. */
  lemma StunsFinal(data: seq<seq<int>>, w: nat, h: nat, exit: Pos, start: Pos, gene: seq<int>, walk: Walk,
                   k: nat, p: Pos, done: seq<Pos>, coll: nat, entered: bool)
    requires StunsLoop(data, w, h, exit, start, gene, walk, k, p, done, coll, entered)
    requires entered || k == |gene| / 2
    ensures InGrid(w, h, p) && p == Last(start, walk.trail) && |done| == |walk.trail| && coll == walk.coll
  {
    if !entered {
      StunsEnd(data, w, h, exit, start, gene, walk, p, done, coll);
    }
  }

  /** One pair of the `fit_collision_stuns` loop: the walker enters the exit and stops,
      collides and stays, or steps onto an empty cell. */
  method StunsPair(data: seq<seq<int>>, w: nat, h: nat, exit: Pos, start: Pos, gene: seq<int>, ghost walk: Walk,
                   k: nat, p: Pos, len: nat, coll: nat, ghost done: seq<Pos>)
    returns (p': Pos, len': nat, coll': nat, entered: bool, ghost done': seq<Pos>)
    requires StunsState(data, w, h, exit, start, gene, walk, k, p, done, coll) && len == |done| && k < |gene| / 2
    ensures len' == |done'| && StunsLoop(data, w, h, exit, start, gene, walk, k + 1, p', done', coll', entered)
  {
    var i := 2 * k;
    var q := Move(p, gene[i], gene[i + 1]);
    p', len', coll', entered, done' := p, len, coll, false, done;
    if q == exit {
      StunsEnter(data, w, h, exit, start, gene, walk, k, p, done, coll);
      p', len', entered, done' := q, len + 1, true, done + [q];
    } else {
      if q.x < 0 || q.y < 0 || q.x >= w || q.y >= h || At(data, q) != EMPTY {
        coll' := coll + 1;
      } else {
        p', len', done' := q, len + 1, done + [q];
      }
      StunsStep(data, w, h, exit, start, gene, walk, k, p, done, coll, p', done', coll');
    }
  }

  /** The state of the `fit_collision_stuns` loop before pair `k`: standing on `p`
      after stepping onto `done` and colliding `coll` times, with the rest of the walk
      still to come. */
  ghost predicate StunsState(data: seq<seq<int>>, w: nat, h: nat, exit: Pos, start: Pos, gene: seq<int>,
                             walk: Walk, k: nat, p: Pos, done: seq<Pos>, coll: nat)
  {
    && IsGrid(data, w, h) && |gene| % 2 == 0 && k <= |gene| / 2 && |gene[2 * k..]| % 2 == 0
    && InGrid(w, h, p) && InGrid(w, h, exit) && p == Last(start, done)
    && walk.trail == done + Stuns(data, w, h, exit, p, gene[2 * k..]).trail
    && walk.coll == coll + Stuns(data, w, h, exit, p, gene[2 * k..]).coll
  }

  /** A pair that does not lead to the exit: a collision or a step. */
  lemma StunsStep(data: seq<seq<int>>, w: nat, h: nat, exit: Pos, start: Pos, gene: seq<int>, walk: Walk,
                  k: nat, p: Pos, done: seq<Pos>, coll: nat, p': Pos, done': seq<Pos>, coll': nat)
    requires StunsState(data, w, h, exit, start, gene, walk, k, p, done, coll) && k < |gene| / 2
    requires 2 * k + 1 < |gene| && Move(p, gene[2 * k], gene[2 * k + 1]) != exit
    requires var q := Move(p, gene[2 * k], gene[2 * k + 1]);
      if Blocked(data, w, h, q) then p' == p && done' == done && coll' == coll + 1
      else p' == q && done' == done + [q] && coll' == coll
    ensures StunsState(data, w, h, exit, start, gene, walk, k + 1, p', done', coll')
  {
    StunsNext(data, w, h, exit, p, gene, k);
    var q := Move(p, gene[2 * k], gene[2 * k + 1]);
    if !Blocked(data, w, h, q) {
      Regroup(done, q, Stuns(data, w, h, exit, q, gene[2 * k + 2..]).trail);
    }
  }

  /** A pair that leads to the exit ends the walk. */
  lemma StunsEnter(data: seq<seq<int>>, w: nat, h: nat, exit: Pos, start: Pos, gene: seq<int>, walk: Walk,
                   k: nat, p: Pos, done: seq<Pos>, coll: nat)
    requires StunsState(data, w, h, exit, start, gene, walk, k, p, done, coll) && k < |gene| / 2
    requires 2 * k + 1 < |gene| && Move(p, gene[2 * k], gene[2 * k + 1]) == exit
    ensures walk == Walk(done + [exit], coll) && exit == Last(start, done + [exit])
  {
    StunsNext(data, w, h, exit, p, gene, k);
  }

  /** All pairs read: the walk is complete. */
  lemma StunsEnd(data: seq<seq<int>>, w: nat, h: nat, exit: Pos, start: Pos, gene: seq<int>, walk: Walk,
                 p: Pos, done: seq<Pos>, coll: nat)
    requires StunsState(data, w, h, exit, start, gene, walk, |gene| / 2, p, done, coll)
    ensures walk == Walk(done, coll)
  {
    assert gene[2 * (|gene| / 2)..] == [];
    assert done + [] == done;
  }

  /** Pair `k` of a `fit_collision_stuns` walk. */
  lemma StunsNext(data: seq<seq<int>>, w: nat, h: nat, exit: Pos, p: Pos, gene: seq<int>, k: nat)
    requires IsGrid(data, w, h) && |gene| % 2 == 0 && k < |gene| / 2
    ensures 2 * k + 1 < |gene| && |gene[2 * k..]| % 2 == 0 && |gene[2 * k + 2..]| % 2 == 0
    ensures var q := Move(p, gene[2 * k], gene[2 * k + 1]);
      var rest := gene[2 * k + 2..];
      Stuns(data, w, h, exit, p, gene[2 * k..]) ==
        if q == exit then Walk([q], 0)
        else if Blocked(data, w, h, q) then
          Walk(Stuns(data, w, h, exit, p, rest).trail, Stuns(data, w, h, exit, p, rest).coll + 1)
        else Walk([q] + Stuns(data, w, h, exit, q, rest).trail, Stuns(data, w, h, exit, q, rest).coll)
  {
    assert gene[2 * k..][2..] == gene[2 * k + 2..];
  }

  /** The number of steps of `trail` that land on a cell the walker has stood on
      before (the start `p0` or an earlier step), other than a step onto the exit,
      which `fit_collision_smart` never counts. */
  function Repeats(p0: Pos, exit: Pos, trail: seq<Pos>): (n: nat)
    ensures n <= |trail|
  {
    if |trail| == 0 then 0
    else
      var k := |trail| - 1;
      Repeats(p0, exit, trail[..k]) + (if trail[k] != exit && trail[k] in [p0] + trail[..k] then 1 else 0)
  }

  /** `fit_collision_smart`: the results of `fit_collision_stuns` on the same gene,
      the number of steps onto a cell stood on before, and whether the exit was
      entered (1) or not (0). */
  method FitSmart(data: seq<seq<int>>, hv: seq<seq<int>>, w: nat, h: nat, start: Pos, exit: Pos, gene: seq<int>)
    returns (dist: int, len: nat, coll: nat, rep: nat, exitFound: int)
    requires IsGrid(data, w, h) && IsGrid(hv, w, h) && InGrid(w, h, start) && InGrid(w, h, exit)
    requires |gene| % 2 == 0
    ensures InGrid(w, h, Last(start, Stuns(data, w, h, exit, start, gene).trail))
    ensures dist == At(hv, Last(start, Stuns(data, w, h, exit, start, gene).trail))
    ensures len == |Stuns(data, w, h, exit, start, gene).trail|
    ensures coll == Stuns(data, w, h, exit, start, gene).coll
    ensures rep == Repeats(start, exit, Stuns(data, w, h, exit, start, gene).trail)
    ensures exitFound == if exit in Stuns(data, w, h, exit, start, gene).trail then 1 else 0
  {
    ghost var walk := Stuns(data, w, h, exit, start, gene);
    var visited := Filled(w, h, 0);
    var p := start;
    len, coll, rep, exitFound := 0, 0, 0, 0;
    ghost var done: seq<Pos> := [];
    var entered := false;
    for k := 0 to |gene| / 2
      invariant SmartState(data, w, h, exit, start, gene, walk, k, p, done, coll, rep, visited)
      invariant len == |done| && !entered
    {
      p, len, coll, rep, visited, entered, done :=
        SmartPair(data, w, h, exit, start, gene, walk, k, p, len, coll, rep, visited, done);
      if entered {
        exitFound := 1;
        break;
      }
    }
    if !entered {
      StunsEnd(data, w, h, exit, start, gene, walk, p, done, coll);
    }
    dist := At(hv, p);
  }

  /** The state of the `fit_collision_smart` loop before pair `k`: that of
      `fit_collision_stuns`, the repetitions so far, and a `visited` table marking every
      cell stood on at the start of an earlier pair. The cell stood on now is marked
      only if it was stood on before. */
  ghost predicate SmartState(data: seq<seq<int>>, w: nat, h: nat, exit: Pos, start: Pos, gene: seq<int>,
                             walk: Walk, k: nat, p: Pos, done: seq<Pos>, coll: nat, rep: nat,
                             visited: seq<seq<int>>)
  {
    && StunsState(data, w, h, exit, start, gene, walk, k, p, done, coll)
    && rep == Repeats(start, exit, done) && exit !in done
    && IsGrid(visited, w, h)
    && forall q :: InGrid(w, h, q) && q != p ==> (At(visited, q) == 1 <==> q in [start] + done)
  }

  /** One pair of the `fit_collision_smart` loop. */
  method SmartPair(data: seq<seq<int>>, w: nat, h: nat, exit: Pos, start: Pos, gene: seq<int>, ghost walk: Walk,
                   k: nat, p: Pos, len: nat, coll: nat, rep: nat, visited: seq<seq<int>>, ghost done: seq<Pos>)
    returns (p': Pos, len': nat, coll': nat, rep': nat, visited': seq<seq<int>>, entered: bool, ghost done': seq<Pos>)
    requires SmartState(data, w, h, exit, start, gene, walk, k, p, done, coll, rep, visited)
    requires len == |done| && k < |gene| / 2
    ensures len' == |done'|
    ensures entered ==> InGrid(w, h, p') && p' == Last(start, done') && walk == Walk(done', coll') && exit in done'
    ensures entered ==> rep' == Repeats(start, exit, done')
    ensures !entered ==> SmartState(data, w, h, exit, start, gene, walk, k + 1, p', done', coll', rep', visited')
  {
    visited' := Put(visited, p, 1);
    SmartVisit(w, h, start, done, p, visited, visited');
    var i := 2 * k;
    var q := Move(p, gene[i], gene[i + 1]);
    p', len', coll', rep', entered, done' := p, len, coll, rep, false, done;
    if q == exit {
      StunsEnter(data, w, h, exit, start, gene, walk, k, p, done, coll);
      p', len', entered, done' := q, len + 1, true, done + [q];
      RepeatsStep(start, exit, done, q);
    } else {
      if q.x < 0 || q.y < 0 || q.x >= w || q.y >= h || At(data, q) != EMPTY {
        coll' := coll + 1;
      } else {
        p', len', done' := q, len + 1, done + [q];
        if At(visited', q) == 1 {
          rep' := rep + 1;
        }
        RepeatsStep(start, exit, done, q);
      }
      StunsStep(data, w, h, exit, start, gene, walk, k, p, done, coll, p', done', coll');
    }
  }

  /** After `visited[p] = 1` the table marks exactly the cells stood on so far. */
  lemma SmartVisit(w: nat, h: nat, start: Pos, done: seq<Pos>, p: Pos, visited: seq<seq<int>>, visited': seq<seq<int>>)
    requires IsGrid(visited, w, h) && InGrid(w, h, p) && p == Last(start, done)
    requires forall q :: InGrid(w, h, q) && q != p ==> (At(visited, q) == 1 <==> q in [start] + done)
    requires visited' == Put(visited, p, 1)
    ensures IsGrid(visited', w, h)
    ensures forall q :: InGrid(w, h, q) ==> (At(visited', q) == 1 <==> q in [start] + done)
  {
    assert p in [start] + done;
  }

  lemma RepeatsStep(start: Pos, exit: Pos, done: seq<Pos>, q: Pos)
    ensures Repeats(start, exit, done + [q]) ==
      Repeats(start, exit, done) + (if q != exit && q in [start] + done then 1 else 0)
  {
    assert (done + [q])[..|done|] == done;
  }
}
