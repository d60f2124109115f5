/** Decoding the maze file's rows into the cell table (`__load`, projekt.py:135-159).
    Reading the file is I/O and is not modelled: the rows arrive as strings, each still
    carrying the one character (the line terminator) that the loader cuts off. */
module Loading {
  import opened Grid

  /** How many characters of `line` the loader looks at: `line[:-1]` leaves out the
      last one; an empty row stays empty. */
  function BodyLength(line: string): nat
  {
    if |line| == 0 then 0 else |line| - 1
  }

  /** The loader's 1-based counter skips every position congruent to 2 modulo 3, so it
      reads 0-based position `j` unless `j % 3 == 1`. */
  predicate IsRead(j: nat)
  {
    j % 3 != 1
  }

  /** The characters the loader reads among the first `n` characters of `line`. */
  function Read(line: string, n: nat): string
    requires n <= |line|
  {
    if n == 0 then [] else Read(line, n - 1) + (if IsRead(n - 1) then [line[n - 1]] else [])
  }

  /** The characters the loader reads from row `line`. */
  function Cells(line: string): string
  {
    Read(line, BodyLength(line))
  }

  /** A read non-space character is a wall, a space an empty cell. */
  function CellOf(c: char): int
  {
    if c != ' ' then WALL else EMPTY
  }

  /** The value the loader leaves in column `x` of a row read from `line`: the decoded
      character, or the table's initial 0 past the end of a short row. */
  function DecodedCell(line: string, x: nat): int
  {
    var cells := Cells(line);
    if x < |cells| then CellOf(cells[x]) else EMPTY
  }

  /** The spaces the loader reads among the first `n` characters of `line`. */
  function SpacesRead(line: string, n: nat): nat
    requires n <= |line|
  {
    if n == 0 then 0 else SpacesRead(line, n - 1) + (if IsRead(n - 1) && line[n - 1] == ' ' then 1 else 0)
  }

  /** Spaces and characters read from the first `n` rows (the loader's `__path_count`
      and `__wall_count + __path_count`). */
  function SpacesIn(lines: seq<string>, n: nat): nat
    requires n <= |lines|
  {
    if n == 0 then 0 else SpacesIn(lines, n - 1) + SpacesRead(lines[n - 1], BodyLength(lines[n - 1]))
  }

  function CellsIn(lines: seq<string>, n: nat): nat
    requires n <= |lines|
  {
    if n == 0 then 0 else CellsIn(lines, n - 1) + |Cells(lines[n - 1])|
  }

  /** Two of every three characters are read. */
  lemma {:induction false} ReadLength(line: string, n: nat)
    requires n <= |line|
    ensures |Read(line, n)| == n - (n + 1) / 3
  {
    if n > 0 {
      ReadLength(line, n - 1);
      ThirdsStep(n - 1);
    }
  }

  /** One more character looked at adds one to the count, except at positions `3k + 1`. */
  lemma ThirdsStep(n: nat)
    ensures n + 1 - (n + 2) / 3 == n - (n + 1) / 3 + (if n % 3 != 1 then 1 else 0)
  {
    var q, r := n / 3, n % 3;
    assert n == 3 * q + r && 0 <= r < 3;
    if r == 0 {
      assert (n + 2) / 3 == q && (n + 1) / 3 == q;
    } else if r == 1 {
      assert (n + 2) / 3 == q + 1 && (n + 1) / 3 == q;
    } else {
      assert (n + 2) / 3 == q + 1 && (n + 1) / 3 == q + 1;
    }
  }

  /** The `k`-th character read is the one at position `k + (k + 1) / 2` of the row. */
  lemma {:induction false} ReadAt(line: string, n: nat, k: nat)
    requires n <= |line| && k < |Read(line, n)|
    ensures k + (k + 1) / 2 < n && Read(line, n)[k] == line[k + (k + 1) / 2]
  {
    ReadLength(line, n - 1);
    ReadLength(line, n);
    if k < |Read(line, n - 1)| {
      ReadAt(line, n - 1, k);
    } else {
      assert IsRead(n - 1) && k == |Read(line, n - 1)|;
    }
  }

  /** Looking at more characters only reads more: what is read from a prefix of a row is
      a prefix of what is read from the whole row. */
  lemma {:induction false} ReadGrows(line: string, j: nat, n: nat)
    requires j <= n <= |line|
    ensures Read(line, j) <= Read(line, n)
  {
    if j < n {
      ReadGrows(line, j, n - 1);
    }
  }

  /** `row` holds the cells decoded from `cells`, then the table's initial 0. */
  predicate RowHolds(row: seq<int>, cells: string, w: nat)
  {
    && |row| == w && |cells| <= w
    && (forall i :: 0 <= i < |cells| ==> row[i] == CellOf(cells[i]))
    && (forall i :: |cells| <= i < w ==> row[i] == EMPTY)
  }

  /** Looking at position `j` of a row whose read characters fit in `w` cells. */
  lemma ReadStep(line: string, j: nat, w: nat)
    requires j < BodyLength(line) && |Cells(line)| <= w
    ensures !IsRead(j) ==> Read(line, j + 1) == Read(line, j)
    ensures ((j + 1) % 3 != 2) == IsRead(j)
  {
    if !IsRead(j) {
      assert Read(line, j) + [] == Read(line, j);
    }
  }

  /** Reading position `j` decodes its character into the next cell `x`. */
  lemma RowNext(line: string, j: nat, w: nat, row: seq<int>, x: nat)
    requires j < BodyLength(line) && |Cells(line)| <= w && IsRead(j)
    requires x == |Read(line, j)| && RowHolds(row, Read(line, j), w)
    ensures x < w && x + 1 == |Read(line, j + 1)|
    ensures RowHolds(row[x := CellOf(line[j])], Read(line, j + 1), w)
  {
    ReadGrows(line, j + 1, BodyLength(line));
    assert Read(line, j + 1) == Read(line, j) + [line[j]];
  }

  /** The inner loop of `__load` over one row's characters (the last character left
      out): every read character becomes the next cell, the rest of the row keeps its
      initial 0, and the counters count read spaces and other read characters. */
  method DecodeRow(line: string, w: nat) returns (row: seq<int>, walls: nat, paths: nat)
    requires |Cells(line)| <= w
    ensures RowHolds(row, Cells(line), w)
    ensures paths == SpacesRead(line, BodyLength(line)) && walls + paths == |Cells(line)|
  {
    row := seq(w, _ => EMPTY);
    walls, paths := 0, 0;
    var n := BodyLength(line);
    var x, counter := 0, 0;
    var j := 0;
    while j < n
      invariant 0 <= j <= n && counter == j
      invariant x == |Read(line, j)| && RowHolds(row, Read(line, j), w)
      invariant paths == SpacesRead(line, j) && walls + paths == x
    {
      var c := line[j];
      ReadStep(line, j, w);
      counter := counter + 1;
      if counter % 3 != 2 {
        RowNext(line, j, w, row, x);
        if c != ' ' {
          row := row[x := WALL];
          walls := walls + 1;
        } else {
          row := row[x := EMPTY];
          paths := paths + 1;
        }
        x := x + 1;
      }
      j := j + 1;
    }
  }

  /** Row `line` of the table as the loader leaves it. */
  function RowOf(line: string, w: nat): (row: seq<int>)
    ensures |row| == w && forall x :: 0 <= x < w ==> row[x] == DecodedCell(line, x)
  {
    seq(w, x requires 0 <= x < w => DecodedCell(line, x))
  }

  /** The first `y` rows are decoded into `g` and counted. */
  predicate Decoding(lines: seq<string>, w: nat, h: nat, y: nat, g: seq<seq<int>>, walls: nat, paths: nat)
  {
    && y <= h <= |lines| && |g| == h
    && (forall r :: 0 <= r < y ==> g[r] == RowOf(lines[r], w))
    && paths == SpacesIn(lines, y) && walls + paths == CellsIn(lines, y)
  }

  /** The row loop of `__load`: every read character of row `y` becomes cell `(x, y)`,
      cells past a short row stay empty, and the two counters count the read spaces
      (`__path_count`) and the other read characters (`__wall_count`). A row that
      yields more cells than `w`, or fewer rows than `h`, makes the loader index out of
      range; those inputs are excluded. */
  method DecodeRows(lines: seq<string>, w: nat, h: nat) returns (g: seq<seq<int>>, walls: nat, paths: nat)
    requires |lines| >= h
    requires forall y :: 0 <= y < h ==> |Cells(lines[y])| <= w
    ensures IsGrid(g, w, h)
    ensures forall q :: InGrid(w, h, q) ==> At(g, q) == DecodedCell(lines[q.y], q.x)
    ensures paths == SpacesIn(lines, h)
    ensures walls + paths == CellsIn(lines, h)
  {
    g := Filled(w, h, EMPTY);
    walls, paths := 0, 0;
    var y := 0;
    while y < h
      invariant y <= h && Decoding(lines, w, h, y, g, walls, paths)
    {
      g, walls, paths := DecodeNext(lines, w, h, y, g, walls, paths);
      y := y + 1;
    }
    RowsDecoded(lines, g, w, h, walls, paths);
  }

  /** One pass of the row loop: row `y` is decoded into the table and counted. */
  method DecodeNext(lines: seq<string>, w: nat, h: nat, y: nat, g: seq<seq<int>>, walls: nat, paths: nat)
    returns (g': seq<seq<int>>, walls': nat, paths': nat)
    requires y < h && Decoding(lines, w, h, y, g, walls, paths) && |Cells(lines[y])| <= w
    ensures Decoding(lines, w, h, y + 1, g', walls', paths')
  {
    var row, rowWalls, rowPaths := DecodeRow(lines[y], w);
    RowIsRowOf(lines[y], w, row);
    g' := g[y := row];
    walls', paths' := walls + rowWalls, paths + rowPaths;
  }

  /** What the inner loop leaves is the row the loader decodes from `line`. */
  lemma RowIsRowOf(line: string, w: nat, row: seq<int>)
    requires RowHolds(row, Cells(line), w)
    ensures row == RowOf(line, w)
  {
  }

  /** Rows decoded one by one make a table of decoded cells. */
  lemma RowsDecoded(lines: seq<string>, g: seq<seq<int>>, w: nat, h: nat, walls: nat, paths: nat)
    requires Decoding(lines, w, h, h, g, walls, paths)
    ensures paths == SpacesIn(lines, h) && walls + paths == CellsIn(lines, h)
    ensures IsGrid(g, w, h)
    ensures forall q :: InGrid(w, h, q) ==> At(g, q) == DecodedCell(lines[q.y], q.x)
  {
    forall q | InGrid(w, h, q)
      ensures At(g, q) == DecodedCell(lines[q.y], q.x)
    {
      assert g[q.y] == RowOf(lines[q.y], w);
    }
  }
}
