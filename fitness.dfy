/** The fitness values the four `*_wrapper` functions hand to the genetic algorithm
    (projekt.py:400-403, 466-469, 553-556 and 650-660), and what they say about the
    individuals they score. */
module Fitness {
  import opened Grid
  import opened Steps
  import opened Walkers

  /** The weights of `fit_collision_smart_wrapper` (projekt.py:24-30): path length,
      invalid moves, repeated cells, final distance from the exit, exit found. */
  const PathWeight := 5
  const CollisionWeight := -2
  const RepeatWeight := -5
  const DistanceWeight := -50
  const ExitBonus := 10000

  /** `fit_binary_fields_wrapper`: the distance counts a thousand times an extra cell. */
  function BinaryValue(dist: int, extra: int): int
  {
    -1000 * dist - extra
  }

  /** `fit_collision_ends_wrapper`. */
  function EndsValue(dist: int): int
  {
    -dist
  }

  /** `fit_collision_stuns_wrapper`. */
  function StunsValue(dist: int, coll: int): int
  {
    -dist - coll
  }

  /** `fit_collision_smart_wrapper`. */
  function SmartValue(len: int, coll: int, rep: int, dist: int, found: int): int
  {
    PathWeight * len + CollisionWeight * coll + RepeatWeight * rep + DistanceWeight * dist + ExitBonus * found
  }

  /** A binary individual whose open region comes nearer the exit scores higher,
      whatever the extra cells, as long as the nearer one has fewer than 1000 of them. */
  lemma BinaryDistanceFirst(d1: int, e1: int, d2: int, e2: int)
    requires 0 <= d1 < d2 && 0 <= e1 < 1000 && 0 <= e2
    ensures BinaryValue(d1, e1) > BinaryValue(d2, e2)
  {
  }

  /** The binary value is never positive, and is 0 exactly for an individual that opens
      a way to the exit with no more cells than the shortest path. */
  lemma BinaryPerfect(d: int, e: int)
    requires 0 <= d && 0 <= e
    ensures BinaryValue(d, e) <= 0
    ensures BinaryValue(d, e) == 0 <==> d == 0 && e == 0
  {
  }

  /** The cells, distance table and entrance/exit the step fitness functions work on,
      as the constructor leaves them. */
  ghost predicate Board(data: seq<seq<int>>, hv: seq<seq<int>>, w: nat, h: nat, start: Pos, exit: Pos)
  {
    && IsGrid(data, w, h) && IsGrid(hv, w, h) && InGrid(w, h, start) && InGrid(w, h, exit) && start != exit
    && forall q :: InGrid(w, h, q) ==> At(hv, q) == HValue(exit, q)
  }

  /** As written, `fit_collision_ends` tests the exit cell (which holds 3) as a
      collision before it checks for the exit, so its walk never gets there and the
      value it reports is at most -1. */
  lemma EndsNeverExit(data: seq<seq<int>>, hv: seq<seq<int>>, w: nat, h: nat, start: Pos, exit: Pos, gene: seq<int>)
    requires Board(data, hv, w, h, start, exit) && At(data, exit) == EXIT && |gene| % 2 == 0
    ensures var e := Last(start, EndsTrail(data, w, h, exit, start, gene));
      InGrid(w, h, e) && e != exit && EndsValue(At(hv, e)) <= -1
  {
    EndsStopShort(data, hv, w, h, exit, start, gene);
  }

  /** The stuns value is never positive, and is 0 exactly when the walk entered the
      exit without a single collision. */
  lemma StunsPerfect(data: seq<seq<int>>, hv: seq<seq<int>>, w: nat, h: nat, start: Pos, exit: Pos, gene: seq<int>)
    requires Board(data, hv, w, h, start, exit) && |gene| % 2 == 0
    ensures var r := Stuns(data, w, h, exit, start, gene);
      var e := Last(start, r.trail);
      && InGrid(w, h, e) && StunsValue(At(hv, e), r.coll) <= 0
      && (StunsValue(At(hv, e), r.coll) == 0 <==> exit in r.trail && r.coll == 0)
  {
    var r := Stuns(data, w, h, exit, start, gene);
    StunsDistance(data, hv, w, h, exit, start, gene);
    HValueZeroOnlyAtExit(exit, Last(start, r.trail));
  }

  /** The value `fit_collision_smart_wrapper` gives the individual `gene`. */
  ghost function SmartScore(data: seq<seq<int>>, hv: seq<seq<int>>, w: nat, h: nat, start: Pos, exit: Pos, gene: seq<int>): int
    requires Board(data, hv, w, h, start, exit) && |gene| % 2 == 0
  {
    var r := Stuns(data, w, h, exit, start, gene);
    StunsDistance(data, hv, w, h, exit, start, gene);
    SmartValue(|r.trail|, r.coll, Repeats(start, exit, r.trail), At(hv, Last(start, r.trail)),
               if exit in r.trail then 1 else 0)
  }

  /** The exit bonus outweighs everything else: for genes of up to 1435 pairs, an
      individual that enters the exit scores above every one that does not. The bound
      is needed: a long enough walk that misses the exit outscores one that enters it.
      The driver script (projekt.py:769) gives the step genes `2 * blanks` pairs, so
      for its own runs the lemma covers only labyrinths of at most 717 blank cells. */
  lemma SmartExitWins(data: seq<seq<int>>, hv: seq<seq<int>>, w: nat, h: nat, start: Pos, exit: Pos,
                      g1: seq<int>, g2: seq<int>)
    requires Board(data, hv, w, h, start, exit) && |g1| % 2 == 0 && |g2| % 2 == 0
    requires |g1| / 2 <= 1435 && |g2| / 2 <= 1435
    requires exit in Stuns(data, w, h, exit, start, g1).trail
    requires exit !in Stuns(data, w, h, exit, start, g2).trail
    ensures SmartScore(data, hv, w, h, start, exit, g1) > SmartScore(data, hv, w, h, start, exit, g2)
  {
    var r1 := Stuns(data, w, h, exit, start, g1);
    var r2 := Stuns(data, w, h, exit, start, g2);
    StunsDistance(data, hv, w, h, exit, start, g1);
    StunsDistance(data, hv, w, h, exit, start, g2);
    HValueZeroOnlyAtExit(exit, Last(start, r2.trail));
    var rep1 := Repeats(start, exit, r1.trail);
    var rep2 := Repeats(start, exit, r2.trail);
    var d2 := At(hv, Last(start, r2.trail));
    assert SmartScore(data, hv, w, h, start, exit, g1) == 5 * (|r1.trail| - rep1) - 2 * r1.coll + 10000;
    assert SmartScore(data, hv, w, h, start, exit, g2) == 5 * |r2.trail| - 2 * r2.coll - 5 * rep2 - 50 * d2;
    assert |r1.trail| >= 1 && r1.coll <= 1434;
    assert d2 >= 1 && |r2.trail| <= 1435;
  }
}
