/** The text `show` prints for one row of a table (projekt.py:338-339): each cell
    formatted with `{:d}`, then the digits 0 to 5 replaced by the glyphs of the cell
    states. Printing itself is not part of this model. */
module Render {
  import opened Grid
  import Loading

  /** `'{:d}'.format(n)` for `n >= 0`: the decimal digits of `n`, with no leading zero. */
  function Digits(n: nat): (s: string)
    ensures |s| >= 1 && IsDigits(s) && DecimalValue(s) == n
    ensures n < 10 ==> s == [DigitChar(n)]
    ensures n >= 10 ==> s[0] != '0'
    decreases n
  {
    if n < 10 then [DigitChar(n)]
    else
      var s := Digits(n / 10) + [DigitChar(n % 10)];
      assert s[..|s| - 1] == Digits(n / 10);
      s
  }

  function DigitChar(d: nat): (c: char)
    requires d < 10
    ensures '0' <= c <= '9' && c as int - '0' as int == d
  {
    (d + '0' as int) as char
  }

  predicate IsDigits(s: string)
  {
    forall i :: 0 <= i < |s| ==> '0' <= s[i] <= '9'
  }

  /** The number a string of decimal digits stands for. */
  function DecimalValue(s: string): nat
    requires IsDigits(s)
  {
    if |s| == 0 then 0 else DecimalValue(s[..|s| - 1]) * 10 + (s[|s| - 1] as int - '0' as int)
  }

  /** `'{:d}'.format(c)`. */
  function Format(c: int): string
  {
    if c < 0 then ['-'] + Digits(-c) else Digits(c)
  }

  /** The chain of `replace` calls, one character at a time: no replacement writes a
      character a later one would rewrite, so the order does not matter. */
  function Replace(ch: char): char
  {
    match ch
    case '0' => ' '
    case '1' => '#'
    case '2' => 'S'
    case '3' => 'E'
    case '4' => '.'
    case '5' => 'X'
    case _ => ch
  }

  function ReplaceAll(s: string): (r: string)
    ensures |r| == |s| && forall i :: 0 <= i < |s| ==> r[i] == Replace(s[i])
  {
    seq(|s|, i requires 0 <= i < |s| => Replace(s[i]))
  }

  /** The line `show` prints for `row`. */
  function Line(row: seq<int>): string
  {
    if |row| == 0 then [] else Line(row[..|row| - 1]) + ReplaceAll(Format(row[|row| - 1]))
  }

  /** The glyph of each cell state (the legend at projekt.py:11-18). */
  function Glyph(c: int): (g: char)
    requires EMPTY <= c <= SEEN
  {
    " #SE.X"[c]
  }

  /** The cell state a glyph stands for. */
  function StateOf(g: char): (c: int)
    ensures c == -1 || EMPTY <= c <= SEEN
  {
    match g
    case ' ' => EMPTY
    case '#' => WALL
    case 'S' => START
    case 'E' => EXIT
    case '.' => PATH
    case 'X' => SEEN
    case _ => -1
  }

  /** Every cell state has its own glyph: reading a glyph back gives the state. */
  lemma GlyphRoundTrip(c: int)
    requires EMPTY <= c <= SEEN
    ensures StateOf(Glyph(c)) == c
  {
  }

  /** The digit of a cell state is replaced by the state's glyph. */
  lemma DigitGlyph(c: int)
    requires EMPTY <= c <= SEEN
    ensures ReplaceAll(Format(c)) == [Glyph(c)]
  {
    assert Format(c) == [DigitChar(c)];
    if c == 0 {
    } else if c == 1 {
    } else if c == 2 {
    } else if c == 3 {
    } else if c == 4 {
    } else {
    }
  }

  /** A row of cell states prints as one glyph per cell, and the states can be read back
      from the line. */
  lemma {:induction false} LineGlyphs(row: seq<int>)
    requires forall i :: 0 <= i < |row| ==> EMPTY <= row[i] <= SEEN
    ensures |Line(row)| == |row|
    ensures forall i :: 0 <= i < |row| ==> Line(row)[i] == Glyph(row[i]) && StateOf(Line(row)[i]) == row[i]
    decreases |row|
  {
    if |row| > 0 {
      var n := |row| - 1;
      LineGlyphs(row[..n]);
      DigitGlyph(row[n]);
      assert Line(row) == Line(row[..n]) + [Glyph(row[n])];
      forall i | 0 <= i < n
        ensures Line(row)[i] == Glyph(row[i])
      {
        assert row[..n][i] == row[i];
      }
    }
    forall i | 0 <= i < |row|
      ensures StateOf(Line(row)[i]) == row[i]
    {
      assert Line(row)[i] == Glyph(row[i]);
      GlyphRoundTrip(row[i]);
    }
  }

  /** Every row of a table of cell states prints as the glyphs of its cells. */
  lemma TableGlyphs(table: seq<seq<int>>, w: nat, h: nat)
    requires IsGrid(table, w, h)
    requires forall y, x :: 0 <= y < h && 0 <= x < w ==> EMPTY <= table[y][x] <= SEEN
    ensures forall y :: 0 <= y < h ==> |Line(table[y])| == w
    ensures forall y, x :: 0 <= y < h && 0 <= x < w ==> Line(table[y])[x] == Glyph(table[y][x])
  {
    forall y | 0 <= y < h
      ensures |Line(table[y])| == w && forall x :: 0 <= x < w ==> Line(table[y])[x] == Glyph(table[y][x])
    {
      LineGlyphs(table[y]);
    }
  }

  /** The loader reads a printed labyrinth map back: a wall glyph is a wall, a blank an
      empty cell. */
  lemma LoadReadsGlyph(c: int)
    requires c == EMPTY || c == WALL
    ensures Loading.CellOf(Glyph(c)) == c
  {
  }
}
