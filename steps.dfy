/** Decoding of step chromosomes and the collision test of the step walkers
    (projekt.py:345-349 and the tests at 453, 501, 541, 593 and 638). A gene is read
    in pairs; each pair names one of the four neighbouring cells. */
module Steps {
  import opened Grid
  import opened Wrappers

  /** The cell a gene pair `(a, b)` leads to from `p`: `00` up, `01` left, `10` right,
      `11` down, where, as in the source, any value other than 0 acts as 1. */
  function Move(p: Pos, a: int, b: int): (q: Pos)
    ensures Adjacent(p, q)
  {
    if a == 0 then
      if b == 0 then Pos(p.x, p.y - 1) else Pos(p.x - 1, p.y)
    else
      if b == 0 then Pos(p.x + 1, p.y) else Pos(p.x, p.y + 1)
  }

  /** The four binary pairs name the four neighbours, each exactly once. */
  lemma MoveCovers(p: Pos, q: Pos)
    requires Adjacent(p, q)
    ensures exists a, b :: 0 <= a <= 1 && 0 <= b <= 1 && Move(p, a, b) == q
  {
    if q == Pos(p.x, p.y - 1) {
      assert Move(p, 0, 0) == q;
    } else if q == Pos(p.x - 1, p.y) {
      assert Move(p, 0, 1) == q;
    } else if q == Pos(p.x + 1, p.y) {
      assert Move(p, 1, 0) == q;
    } else {
      assert Move(p, 1, 1) == q;
    }
  }

  lemma MoveDistinct(p: Pos, a: int, b: int, a': int, b': int)
    requires 0 <= a <= 1 && 0 <= b <= 1 && 0 <= a' <= 1 && 0 <= b' <= 1
    requires Move(p, a, b) == Move(p, a', b')
    ensures a == a' && b == b'
  {
  }

  /** The collision test as the walkers write it at projekt.py:453, 501, 541 and 638:
      the second bound compares the column with the height, so a row below the table
      is let through to the indexing, which fails (`None` here), and in a table wider
      than tall every column from `h` on counts as blocked. */
  function BlockedAsWritten(data: seq<seq<int>>, w: nat, h: nat, q: Pos): (r: Option<bool>)
    requires IsGrid(data, w, h)
    ensures r.None? ==> q.y >= h
  {
    if q.x < 0 || q.y < 0 || q.x >= w || q.x >= h then Some(true)
    else if q.y >= h then None
    else Some(At(data, q) != EMPTY)
  }

  /** The collision test as intended, and as `predraw_collision_stuns` writes it at
      projekt.py:593: outside the table, or not an empty cell. */
  predicate Blocked(data: seq<seq<int>>, w: nat, h: nat, q: Pos)
    requires IsGrid(data, w, h)
  {
    q.x < 0 || q.y < 0 || q.x >= w || q.y >= h || At(data, q) != EMPTY
  }

  /** The two tests agree on every cell above the bottom edge of a table no wider than
      it is tall, which covers the square labyrinths the program is run on. */
  lemma BlockedAgrees(data: seq<seq<int>>, w: nat, h: nat, q: Pos)
    requires IsGrid(data, w, h) && w <= h && q.y < h
    ensures BlockedAsWritten(data, w, h, q) == Some(Blocked(data, w, h, q))
  {
  }

  /** A labyrinth read from the rows `###`, `###`, ` # `: the entrance is (0, 2), the
      exit (2, 2). */
  function Corridor(): seq<seq<int>>
  {
    [[WALL, WALL, WALL], [WALL, WALL, WALL], [START, WALL, EXIT]]
  }

  /** Gene pair `11` (down) from the entrance of `Corridor` reaches row 3, which the
      written test lets through to `data[3]`, out of range; the intended test blocks it. */
  lemma BlockedAsWrittenFailsBelow()
    ensures IsGrid(Corridor(), 3, 3)
    ensures BlockedAsWritten(Corridor(), 3, 3, Move(Pos(0, 2), 1, 1)).None?
    ensures Blocked(Corridor(), 3, 3, Move(Pos(0, 2), 1, 1))
  {
  }

  /** In a one-row table three cells wide, the empty middle cell counts as blocked by
      the written test although it is free. */
  lemma BlockedAsWrittenWide()
    ensures IsGrid([[START, EMPTY, EXIT]], 3, 1)
    ensures BlockedAsWritten([[START, EMPTY, EXIT]], 3, 1, Pos(1, 0)) == Some(true)
    ensures !Blocked([[START, EMPTY, EXIT]], 3, 1, Pos(1, 0))
  {
  }

  /** A cell the intended test lets through is an empty cell of the table. */
  lemma UnblockedIsEmpty(data: seq<seq<int>>, w: nat, h: nat, q: Pos)
    requires IsGrid(data, w, h) && !Blocked(data, w, h, q)
    ensures InGrid(w, h, q) && At(data, q) == EMPTY
  {
  }

  /** Where a walk from `p` that stepped onto the cells of `trail` stands. */
  function Last(p: Pos, trail: seq<Pos>): (r: Pos)
    ensures r == p || r in trail
  {
    if |trail| == 0 then p else trail[|trail| - 1]
  }
}
