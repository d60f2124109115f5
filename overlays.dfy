/** The overlays the step `predraw_*` functions paint into `__gene_map`: a copy of the
    labyrinth with the cells of the walk set to 4 (projekt.py:486-507 and 573-598;
    `predraw_collision_smart`, 679-704, is the same code as the stuns one). */
module Overlays {
  import opened Grid
  import opened Steps
  import opened Walkers

  /** `gm` is `data` with exactly the cells of `cells` set to 4. */
  ghost predicate Shows(data: seq<seq<int>>, gm: seq<seq<int>>, w: nat, h: nat, cells: seq<Pos>)
    requires IsGrid(data, w, h) && IsGrid(gm, w, h)
  {
    forall q :: InGrid(w, h, q) ==> At(gm, q) == if q in cells then PATH else At(data, q)
  }

  lemma ShowsStep(data: seq<seq<int>>, gm: seq<seq<int>>, w: nat, h: nat, cells: seq<Pos>, q: Pos)
    requires IsGrid(data, w, h) && IsGrid(gm, w, h) && InGrid(w, h, q) && Shows(data, gm, w, h, cells)
    ensures IsGrid(Put(gm, q, PATH), w, h) && Shows(data, Put(gm, q, PATH), w, h, cells + [q])
  {
  }

  lemma ShowsAt(data: seq<seq<int>>, gm: seq<seq<int>>, w: nat, h: nat, cells: seq<Pos>, q: Pos)
    requires IsGrid(data, w, h) && IsGrid(gm, w, h) && InGrid(w, h, q) && Shows(data, gm, w, h, cells)
    ensures At(gm, q) == if q in cells then PATH else At(data, q)
  {
  }

  predicate Distinct(s: seq<Pos>)
  {
    forall i, j :: 0 <= i < j < |s| ==> s[i] != s[j]
  }

  /** The length of the longest prefix of `s` without a repeated cell. */
  function FirstRepeat(s: seq<Pos>): (k: nat)
    ensures k <= |s| && Distinct(s[..k]) && (k < |s| ==> s[k] in s[..k])
  {
    RepeatFrom(s, 0)
  }

  function RepeatFrom(s: seq<Pos>, k: nat): (r: nat)
    requires k <= |s| && Distinct(s[..k])
    ensures k <= r <= |s| && Distinct(s[..r]) && (r < |s| ==> s[r] in s[..r])
    decreases |s| - k
  {
    if k == |s| || s[k] in s[..k] then k
    else
      assert s[..k + 1] == s[..k] + [s[k]];
      RepeatFrom(s, k + 1)
  }

  /** The repetition-free prefix is determined by the two properties that define it. */
  lemma FirstRepeatUnique(s: seq<Pos>, k: nat)
    requires k <= |s| && Distinct(s[..k]) && (k < |s| ==> s[k] in s[..k])
    ensures k == FirstRepeat(s)
  {
    RepeatFromUnique(s, 0, k);
  }

  lemma {:induction false} RepeatFromUnique(s: seq<Pos>, i: nat, k: nat)
    requires i <= k <= |s| && Distinct(s[..k]) && (k < |s| ==> s[k] in s[..k])
    ensures Distinct(s[..i]) && RepeatFrom(s, i) == k
    decreases k - i
  {
    DistinctShorter(s, i, k);
    if i < k {
      forall j | 0 <= j < i
        ensures s[..i][j] != s[i]
      {
        assert s[..k][j] == s[..i][j] && s[..k][i] == s[i];
      }
      RepeatFromUnique(s, i + 1, k);
    }
  }

  lemma DistinctShorter(s: seq<Pos>, i: nat, k: nat)
    requires i <= k <= |s| && Distinct(s[..k])
    ensures Distinct(s[..i])
  {
    forall a, b | 0 <= a < b < i
      ensures s[..i][a] != s[..i][b]
    {
      assert s[..i][a] == s[..k][a] && s[..i][b] == s[..k][b];
    }
  }

  /** The state of the `predraw_collision_ends` loop before pair `k`: standing on `p`
      after painting the distinct cells `done`, the first part of the walk of
      `fit_collision_ends`. */
  ghost predicate EndsDrawState(data: seq<seq<int>>, w: nat, h: nat, exit: Pos, start: Pos, gene: seq<int>,
                                trail: seq<Pos>, k: nat, p: Pos, done: seq<Pos>, gm: seq<seq<int>>)
  {
    && IsGrid(data, w, h) && |gene| % 2 == 0 && k <= |gene| / 2 && |gene[2 * k..]| % 2 == 0
    && InGrid(w, h, p) && p == Last(start, done)
    && trail == done + EndsTrail(data, w, h, exit, p, gene[2 * k..])
    && Distinct(done) && (forall j :: 0 <= j < |done| ==> InGrid(w, h, done[j]) && At(data, done[j]) == EMPTY)
    && IsGrid(gm, w, h) && Shows(data, gm, w, h, done)
  }

  /** `predraw_collision_ends`: the walk of `fit_collision_ends` painted with 4, up to
      the first step onto a cell it has already painted, where it stops because it
      tests the overlay instead of the labyrinth (projekt.py:501). */
  method DrawEnds(data: seq<seq<int>>, w: nat, h: nat, start: Pos, exit: Pos, gene: seq<int>) returns (gm: seq<seq<int>>)
    requires IsGrid(data, w, h) && InGrid(w, h, start) && |gene| % 2 == 0
    ensures IsGrid(gm, w, h)
    ensures var trail := EndsTrail(data, w, h, exit, start, gene);
      Shows(data, gm, w, h, trail[..FirstRepeat(trail)])
  {
    ghost var trail := EndsTrail(data, w, h, exit, start, gene);
    gm := data;
    var p := start;
    ghost var done: seq<Pos> := [];
    var stop := false;
    for k := 0 to |gene| / 2
      invariant EndsDrawState(data, w, h, exit, start, gene, trail, k, p, done, gm) && !stop
    {
      p, gm, stop, done := EndsDrawPair(data, w, h, exit, start, gene, trail, k, p, gm, done);
      if stop {
        break;
      }
    }
    if !stop {
      EndsDrawEnd(data, w, h, exit, start, gene, trail, p, done, gm);
    }
  }

  /** One pair of `predraw_collision_ends`. */
  method EndsDrawPair(data: seq<seq<int>>, w: nat, h: nat, exit: Pos, start: Pos, gene: seq<int>, ghost trail: seq<Pos>,
                      k: nat, p: Pos, gm: seq<seq<int>>, ghost done: seq<Pos>)
    returns (p': Pos, gm': seq<seq<int>>, stop: bool, ghost done': seq<Pos>)
    requires EndsDrawState(data, w, h, exit, start, gene, trail, k, p, done, gm) && k < |gene| / 2
    ensures stop ==> IsGrid(gm', w, h) && Shows(data, gm', w, h, trail[..FirstRepeat(trail)])
    ensures !stop ==> EndsDrawState(data, w, h, exit, start, gene, trail, k + 1, p', done', gm')
  {
    var q := Move(p, gene[2 * k], gene[2 * k + 1]);
    EndsNext(data, w, h, exit, p, gene, k);
    p', gm', stop, done' := p, gm, true, done;
    if q.x < 0 || q.y < 0 || q.x >= w || q.y >= h || At(gm, q) != EMPTY {
      EndsDrawBlocked(data, w, h, exit, start, gene, trail, k, p, done, gm);
      return;
    }
    EndsDrawOn(data, w, h, exit, start, gene, trail, k, p, done, gm);
    p', gm', done' := q, Put(gm, q, PATH), done + [q];
    if p' == exit {
      return;
    }
    stop := false;
  }

  /** The overlay lets the move of pair `k` through: the cell is new and free in the
      labyrinth too, so painting it keeps the state, or completes the walk at the exit. */
  lemma EndsDrawOn(data: seq<seq<int>>, w: nat, h: nat, exit: Pos, start: Pos, gene: seq<int>,
                   trail: seq<Pos>, k: nat, p: Pos, done: seq<Pos>, gm: seq<seq<int>>)
    requires EndsDrawState(data, w, h, exit, start, gene, trail, k, p, done, gm) && k < |gene| / 2
    requires var q := Move(p, gene[2 * k], gene[2 * k + 1]);
      InGrid(w, h, q) && At(gm, q) == EMPTY
    ensures var q := Move(p, gene[2 * k], gene[2 * k + 1]);
      && IsGrid(Put(gm, q, PATH), w, h)
      && (q == exit ==> Shows(data, Put(gm, q, PATH), w, h, trail[..FirstRepeat(trail)]))
      && (q != exit ==> EndsDrawState(data, w, h, exit, start, gene, trail, k + 1, q, done + [q], Put(gm, q, PATH)))
  {
    var q := Move(p, gene[2 * k], gene[2 * k + 1]);
    EndsPaint(data, w, h, exit, start, gene, trail, k, p, done, gm);
    if q == exit {
      EndsPaintExit(trail, done + [q]);
    } else {
      assert trail == (done + [q]) + EndsTrail(data, w, h, exit, q, gene[2 * (k + 1)..]);
    }
  }

  /** Painting a cell the overlay lets through. */
  lemma EndsPaint(data: seq<seq<int>>, w: nat, h: nat, exit: Pos, start: Pos, gene: seq<int>,
                  trail: seq<Pos>, k: nat, p: Pos, done: seq<Pos>, gm: seq<seq<int>>)
    requires EndsDrawState(data, w, h, exit, start, gene, trail, k, p, done, gm) && k < |gene| / 2
    requires var q := Move(p, gene[2 * k], gene[2 * k + 1]);
      InGrid(w, h, q) && At(gm, q) == EMPTY
    ensures 2 * k + 1 < |gene| && |gene[2 * (k + 1)..]| % 2 == 0
    ensures var q := Move(p, gene[2 * k], gene[2 * k + 1]);
      && IsGrid(Put(gm, q, PATH), w, h) && Shows(data, Put(gm, q, PATH), w, h, done + [q])
      && Distinct(done + [q]) && At(data, q) == EMPTY
      && (forall j :: 0 <= j < |done + [q]| ==> InGrid(w, h, (done + [q])[j]) && At(data, (done + [q])[j]) == EMPTY)
      && trail == (done + [q]) + (if q == exit then [] else EndsTrail(data, w, h, exit, q, gene[2 * (k + 1)..]))
  {
    var q := Move(p, gene[2 * k], gene[2 * k + 1]);
    PaintCell(data, w, h, done, gm, q);
    EndsNext(data, w, h, exit, p, gene, k);
    TrailOn(data, w, h, exit, p, gene, k, trail, done);
  }

  /** Painting a cell that is 0 in the overlay: it is new, and free in the labyrinth. */
  lemma PaintCell(data: seq<seq<int>>, w: nat, h: nat, done: seq<Pos>, gm: seq<seq<int>>, q: Pos)
    requires IsGrid(data, w, h) && IsGrid(gm, w, h) && Shows(data, gm, w, h, done) && Distinct(done)
    requires forall j :: 0 <= j < |done| ==> InGrid(w, h, done[j]) && At(data, done[j]) == EMPTY
    requires InGrid(w, h, q) && At(gm, q) == EMPTY
    ensures IsGrid(Put(gm, q, PATH), w, h) && Shows(data, Put(gm, q, PATH), w, h, done + [q])
    ensures Distinct(done + [q]) && At(data, q) == EMPTY
    ensures forall j :: 0 <= j < |done + [q]| ==> InGrid(w, h, (done + [q])[j]) && At(data, (done + [q])[j]) == EMPTY
  {
    ShowsAt(data, gm, w, h, done, q);
    ShowsStep(data, gm, w, h, done, q);
    DistinctAppend(done, q);
    FreeAppend(data, w, h, done, q);
  }

  /** The walk continues through the painted cell (or ends there at the exit). */
  lemma TrailOn(data: seq<seq<int>>, w: nat, h: nat, exit: Pos, p: Pos, gene: seq<int>, k: nat,
                trail: seq<Pos>, done: seq<Pos>)
    requires IsGrid(data, w, h) && |gene| % 2 == 0 && k < |gene| / 2
    requires trail == done + EndsTrail(data, w, h, exit, p, gene[2 * k..])
    requires !Blocked(data, w, h, Move(p, gene[2 * k], gene[2 * k + 1]))
    ensures 2 * k + 1 < |gene| && |gene[2 * (k + 1)..]| % 2 == 0
    ensures var q := Move(p, gene[2 * k], gene[2 * k + 1]);
      trail == (done + [q]) + (if q == exit then [] else EndsTrail(data, w, h, exit, q, gene[2 * (k + 1)..]))
  {
    var q := Move(p, gene[2 * k], gene[2 * k + 1]);
    EndsNext(data, w, h, exit, p, gene, k);
    assert 2 * (k + 1) == 2 * k + 2;
    Regroup(done, q, EndsTrail(data, w, h, exit, q, gene[2 * k + 2..]));
  }

  /** The walk ends at the exit with no repeated cell: it is painted whole. */
  lemma EndsPaintExit(trail: seq<Pos>, done: seq<Pos>)
    requires trail == done + [] && Distinct(done)
    ensures trail[..FirstRepeat(trail)] == done
  {
    assert trail[..|done|] == done;
    FirstRepeatUnique(trail, |done|);
  }

  lemma DistinctAppend(s: seq<Pos>, q: Pos)
    requires Distinct(s) && q !in s
    ensures Distinct(s + [q])
  {
  }

  lemma FreeAppend(data: seq<seq<int>>, w: nat, h: nat, done: seq<Pos>, q: Pos)
    requires IsGrid(data, w, h) && InGrid(w, h, q) && At(data, q) == EMPTY
    requires forall j :: 0 <= j < |done| ==> InGrid(w, h, done[j]) && At(data, done[j]) == EMPTY
    ensures forall j :: 0 <= j < |done + [q]| ==> InGrid(w, h, (done + [q])[j]) && At(data, (done + [q])[j]) == EMPTY
  {
  }

  /** The overlay blocks the move of pair `k`: either the labyrinth blocks it too and
      the walk ends here, or the walk steps next onto a cell already painted. */
  lemma EndsDrawBlocked(data: seq<seq<int>>, w: nat, h: nat, exit: Pos, start: Pos, gene: seq<int>,
                        trail: seq<Pos>, k: nat, p: Pos, done: seq<Pos>, gm: seq<seq<int>>)
    requires EndsDrawState(data, w, h, exit, start, gene, trail, k, p, done, gm) && k < |gene| / 2
    requires var q := Move(p, gene[2 * k], gene[2 * k + 1]);
      q.x < 0 || q.y < 0 || q.x >= w || q.y >= h || At(gm, q) != EMPTY
    ensures Shows(data, gm, w, h, trail[..FirstRepeat(trail)])
  {
    EndsNext(data, w, h, exit, p, gene, k);
    var q := Move(p, gene[2 * k], gene[2 * k + 1]);
    assert trail[..|done|] == done;
    if !Blocked(data, w, h, q) {
      assert q in done;
      assert trail[|done|] == q;
    } else {
      assert trail == done;
    }
    FirstRepeatUnique(trail, |done|);
  }

  /** All pairs read: the whole walk is painted. */
  lemma EndsDrawEnd(data: seq<seq<int>>, w: nat, h: nat, exit: Pos, start: Pos, gene: seq<int>,
                    trail: seq<Pos>, p: Pos, done: seq<Pos>, gm: seq<seq<int>>)
    requires EndsDrawState(data, w, h, exit, start, gene, trail, |gene| / 2, p, done, gm)
    ensures Shows(data, gm, w, h, trail[..FirstRepeat(trail)])
  {
    assert gene[2 * (|gene| / 2)..] == [];
    assert trail == done;
    assert trail[..|trail|] == trail;
    FirstRepeatUnique(trail, |trail|);
  }

  /** A walk with no repeated cell is painted whole. */
  lemma DrawEndsWhole(trail: seq<Pos>)
    requires Distinct(trail)
    ensures trail[..FirstRepeat(trail)] == trail
  {
    assert trail[..|trail|] == trail;
    FirstRepeatUnique(trail, |trail|);
  }

  /** `predraw_collision_stuns` (and `predraw_collision_smart`): the walk of
      `fit_collision_stuns` painted with 4, the exit included when it is entered. */
  method DrawStuns(data: seq<seq<int>>, w: nat, h: nat, start: Pos, exit: Pos, gene: seq<int>) returns (gm: seq<seq<int>>)
    requires IsGrid(data, w, h) && InGrid(w, h, start) && InGrid(w, h, exit) && |gene| % 2 == 0
    ensures IsGrid(gm, w, h)
    ensures Shows(data, gm, w, h, Stuns(data, w, h, exit, start, gene).trail)
  {
    ghost var walk := Stuns(data, w, h, exit, start, gene);
    gm := data;
    var p := start;
    ghost var done: seq<Pos> := [];
    ghost var coll: nat := 0;
    var entered := false;
    for k := 0 to |gene| / 2
      invariant StunsState(data, w, h, exit, start, gene, walk, k, p, done, coll) && !entered
      invariant IsGrid(gm, w, h) && Shows(data, gm, w, h, done)
    {
      p, gm, entered, done, coll := StunsDrawPair(data, w, h, exit, start, gene, walk, k, p, gm, done, coll);
      if entered {
        break;
      }
    }
    if !entered {
      StunsEnd(data, w, h, exit, start, gene, walk, p, done, coll);
    }
  }

  /** One pair of `predraw_collision_stuns`. */
  method StunsDrawPair(data: seq<seq<int>>, w: nat, h: nat, exit: Pos, start: Pos, gene: seq<int>, ghost walk: Walk,
                       k: nat, p: Pos, gm: seq<seq<int>>, ghost done: seq<Pos>, ghost coll: nat)
    returns (p': Pos, gm': seq<seq<int>>, entered: bool, ghost done': seq<Pos>, ghost coll': nat)
    requires StunsState(data, w, h, exit, start, gene, walk, k, p, done, coll) && k < |gene| / 2
    requires IsGrid(gm, w, h) && Shows(data, gm, w, h, done)
    ensures IsGrid(gm', w, h) && Shows(data, gm', w, h, done')
    ensures entered ==> walk.trail == done'
    ensures !entered ==> StunsState(data, w, h, exit, start, gene, walk, k + 1, p', done', coll')
  {
    var q := Move(p, gene[2 * k], gene[2 * k + 1]);
    p', gm', entered, done', coll' := p, gm, false, done, coll;
    if q == exit {
      StunsEnter(data, w, h, exit, start, gene, walk, k, p, done, coll);
      ShowsStep(data, gm, w, h, done, q);
      p', gm', entered, done' := q, Put(gm, q, PATH), true, done + [q];
    } else {
      if 0 <= q.x < w && 0 <= q.y < h && At(data, q) == EMPTY {
        ShowsStep(data, gm, w, h, done, q);
        p', gm', done' := q, Put(gm, q, PATH), done + [q];
      } else {
        coll' := coll + 1;
      }
      StunsStep(data, w, h, exit, start, gene, walk, k, p, done, coll, p', done', coll');
    }
  }
}
