/** The board (class Board): nine cells and the eight winning lines that
    alias them.

        R0 | 0 | 1 | 2 |      R3, R4, R5: the columns
        R1 | 3 | 4 | 5 |      R6: the diagonal 0-4-8
        R2 | 6 | 7 | 8 |      R7: the diagonal 2-4-6                     */
module Boards {
  import opened Glyphs
  import opened Rows
  import opened Random

  /** A row of the 3x3 board. */
  type Line = r: Row | r.Fits(MaxCells) witness Row(0, 1, 2)

  /** Number of rows (Board::MAX_ROWS). */
  const MaxRows: nat := 8

  /** The row table that Board::Board assigns. */
  const Lines: seq<Line> := [
    Row(0, 1, 2), Row(3, 4, 5), Row(6, 7, 8),  // horizontal
    Row(0, 3, 6), Row(1, 4, 7), Row(2, 5, 8),  // vertical
    Row(0, 4, 8), Row(2, 4, 6)                 // diagonal
  ]

  /** Grid geometry, independent of the table: cell i sits in grid row i / 3
      and grid column i % 3. */
  predicate Collinear(a: nat, b: nat, c: nat) {
    (a / 3 == b / 3 == c / 3) ||
    (a % 3 == b % 3 == c % 3) ||
    (a / 3 == a % 3 && b / 3 == b % 3 && c / 3 == c % 3) ||
    (a / 3 + a % 3 == 2 && b / 3 + b % 3 == 2 && c / 3 + c % 3 == 2)
  }

  /** The table holds exactly the straight lines of three cells of the grid:
      each row is such a line, listed in increasing order, and every such
      line is in the table. */
  lemma LinesAreTheWinningLines()
    ensures |Lines| == MaxRows
    ensures forall n :: 0 <= n < |Lines| ==>
      Lines[n].c0 < Lines[n].c1 < Lines[n].c2 && Collinear(Lines[n].c0, Lines[n].c1, Lines[n].c2)
    ensures forall a, b, c :: 0 <= a < b < c < 9 && Collinear(a, b, c) ==> Row(a, b, c) in Lines
  {
  }

  /** The j-th row visited by a cyclic scan that starts at row `start`. */
  function ScanRow(start: nat, j: nat): Line {
    Lines[(start + j) % MaxRows]
  }

  /** Offset `j` of the scan from `start` is row `idx` of the table. */
  lemma ScanRowAt(start: nat, j: nat, idx: nat)
    requires idx == (start + j) % MaxRows
    ensures ScanRow(start, j) == Lines[idx]
  {
  }

  /** What one run of Board::findMove leaves behind, from what its scan
      saw: a hit marks the first match and draws twice, a miss after a
      scan of all eight rows changes nothing and draws once.  It takes the
      state as plain values so that FindMove proves its four postconditions
      from one small obligation per exit instead of one large one. */
  lemma SearchOutcome(s: seq<Byte>, glyph: Byte, rowSum: Word, draw: nat -> nat, k: nat, start: nat,
                      result: bool, t: seq<Byte>, drawn: nat)
    requires |s| == MaxCells && start == draw(k) % 7
    requires result ==> AnyMatch(s, rowSum) && drawn == k + 2 &&
                        t == FoundMove(s, glyph, rowSum, start, draw(k + 1) % 2)
    requires !result ==> FirstMatch(s, rowSum, start, 0) == MaxRows && drawn == k + 1 && t == s
    ensures result <==> AnyMatch(s, rowSum)
    ensures drawn == k + (if result then 2 else 1)
    ensures result ==> t == FoundMove(s, glyph, rowSum, draw(k) % 7, draw(k + 1) % 2)
    ensures !result ==> t == s
  {
    if !result {
      FoundMoveNone(s, glyph, rowSum, start, 0);
    }
  }

  /** Some row of the board sums to `rowSum`. */
  predicate AnyMatch(s: seq<Byte>, rowSum: Word)
    requires |s| == MaxCells
  {
    exists n {:trigger IsMatch(s, Lines[n], rowSum)} :: 0 <= n < MaxRows && IsMatch(s, Lines[n], rowSum)
  }

  /** The offset, counted from `start`, of the first row that sums to
      `rowSum` in the cyclic order start, start+1, ..., start+7 (mod 8),
      looking no earlier than offset `n`; 8 when there is none. */
  function FirstMatch(s: seq<Byte>, rowSum: Word, start: nat, n: nat): (k: nat)
    requires |s| == MaxCells && n <= MaxRows
    decreases MaxRows - n
    ensures n <= k <= MaxRows
    ensures k < MaxRows ==> IsMatch(s, ScanRow(start, k), rowSum)
    ensures forall j :: n <= j < k ==> !IsMatch(s, ScanRow(start, j), rowSum)
  {
    if n == MaxRows then MaxRows
    else if IsMatch(s, ScanRow(start, n), rowSum) then n
    else FirstMatch(s, rowSum, start, n + 1)
  }

  /** A full cyclic scan finds a matching row exactly when there is one. */
  lemma FirstMatchFindsAny(s: seq<Byte>, rowSum: Word, start: nat)
    requires |s| == MaxCells
    ensures FirstMatch(s, rowSum, start, 0) < MaxRows <==> AnyMatch(s, rowSum)
  {
    var k := FirstMatch(s, rowSum, start, 0);
    if k < MaxRows {
      ScanRowAt(start, k, (start + k) % MaxRows);
    }
    if AnyMatch(s, rowSum) {
      var m :| 0 <= m < MaxRows && IsMatch(s, Lines[m], rowSum);
      var j := (m - start) % MaxRows;
      ScanReaches(start, m);
      ScanRowAt(start, j, m);
      FirstMatchStopsBy(s, rowSum, start, 0, j);
    }
  }

  /** Every row is reached by the scan from `start` within eight steps. */
  lemma ScanReaches(start: nat, m: nat)
    requires m < MaxRows
    ensures (m - start) % MaxRows < MaxRows && (start + (m - start) % MaxRows) % MaxRows == m
  {
  }

  /** One step of the scan: a match at offset `n` is where it stops, and
      otherwise it goes on at `n + 1`. */
  lemma FirstMatchStep(s: seq<Byte>, rowSum: Word, start: nat, n: nat)
    requires |s| == MaxCells && n < MaxRows
    ensures IsMatch(s, ScanRow(start, n), rowSum) ==> FirstMatch(s, rowSum, start, n) == n
    ensures !IsMatch(s, ScanRow(start, n), rowSum) ==> FirstMatch(s, rowSum, start, n) == FirstMatch(s, rowSum, start, n + 1)
  {
  }

  /** The scan stops no later than any matching row it reaches. */
  lemma {:induction false} FirstMatchStopsBy(s: seq<Byte>, rowSum: Word, start: nat, n: nat, j: nat)
    requires |s| == MaxCells && n <= j < MaxRows && IsMatch(s, ScanRow(start, j), rowSum)
    decreases j - n
    ensures FirstMatch(s, rowSum, start, n) <= j
  {
    if n < j && !IsMatch(s, ScanRow(start, n), rowSum) {
      FirstMatchStopsBy(s, rowSum, start, n + 1, j);
    }
  }

  /** What Board::findMove does to the board, given the two scan offsets
      drawn from rand(): it marks the first row that sums to `rowSum` in the
      cyclic order starting at `startRow`, and leaves the board alone when
      no row does. */
  function FoundMove(s: seq<Byte>, glyph: Byte, rowSum: Word, startRow: nat, startCell: nat): (t: seq<Byte>)
    requires |s| == MaxCells
    ensures |t| == MaxCells
    ensures t == s || exists k :: 0 <= k < MaxRows && IsMatch(s, ScanRow(startRow, k), rowSum) &&
                                  (forall j :: 0 <= j < k ==> !IsMatch(s, ScanRow(startRow, j), rowSum)) &&
                                  t == Marked(s, ScanRow(startRow, k), glyph, startCell)
  {
    var k := FirstMatch(s, rowSum, startRow, 0);
    if k < MaxRows then Marked(s, ScanRow(startRow, k), glyph, startCell) else s
  }

  /** A successful search marks the first matching row of the cyclic scan
      that starts at `startRow`. */
  lemma FoundMoveMarksFirstMatch(s: seq<Byte>, glyph: Byte, rowSum: Word, startRow: nat, startCell: nat)
    requires |s| == MaxCells && AnyMatch(s, rowSum)
    ensures exists k :: 0 <= k < MaxRows && IsMatch(s, ScanRow(startRow, k), rowSum) &&
                        (forall j :: 0 <= j < k ==> !IsMatch(s, ScanRow(startRow, j), rowSum)) &&
                        FoundMove(s, glyph, rowSum, startRow, startCell) == Marked(s, ScanRow(startRow, k), glyph, startCell)
  {
    FirstMatchFindsAny(s, rowSum, startRow);
    var k := FirstMatch(s, rowSum, startRow, 0);
    assert FoundMove(s, glyph, rowSum, startRow, startCell) == Marked(s, ScanRow(startRow, k), glyph, startCell);
  }

  /** The search stops at offset `n` of the scan and marks that row. */
  lemma FoundMoveAt(s: seq<Byte>, glyph: Byte, rowSum: Word, startRow: nat, startCell: nat, n: nat)
    requires |s| == MaxCells && n < MaxRows && FirstMatch(s, rowSum, startRow, 0) == n
    ensures AnyMatch(s, rowSum)
    ensures FoundMove(s, glyph, rowSum, startRow, startCell) == Marked(s, ScanRow(startRow, n), glyph, startCell)
  {
    FirstMatchFindsAny(s, rowSum, startRow);
  }

  /** The search runs through all eight rows and finds none. */
  lemma FoundMoveNone(s: seq<Byte>, glyph: Byte, rowSum: Word, startRow: nat, startCell: nat)
    requires |s| == MaxCells && FirstMatch(s, rowSum, startRow, 0) == MaxRows
    ensures !AnyMatch(s, rowSum)
    ensures FoundMove(s, glyph, rowSum, startRow, startCell) == s
  {
    FirstMatchFindsAny(s, rowSum, startRow);
  }

  /** When `rowSum` is the sum of a row with an open cell (at most 208), a
      successful search on a board of glyphs changes exactly one cell, from
      blank to `glyph`. */
  lemma FoundMoveFillsOneBlank(s: seq<Byte>, glyph: Byte, rowSum: Word, startRow: nat, startCell: nat)
    requires WellFormed(s) && rowSum <= 208 && AnyMatch(s, rowSum)
    ensures exists i :: 0 <= i < MaxCells && s[i] == B &&
                        FoundMove(s, glyph, rowSum, startRow, startCell) == s[i := glyph]
  {
    var t := FoundMove(s, glyph, rowSum, startRow, startCell);
    var k := FirstMatch(s, rowSum, startRow, 0);
    FirstMatchFindsAny(s, rowSum, startRow);
    var r := ScanRow(startRow, k);
    assert t == Marked(s, r, glyph, startCell);
    assert RowOfGlyphs(s, r);
    HasBlankIffSmallSum(s, r);
    var j :| 0 <= j < 3 && s[r.Scan(startCell, j)] == B && t == s[r.Scan(startCell, j) := glyph];
    assert r.Scan(startCell, j) < MaxCells;
  }

  /** When exactly one row sums to `rowSum`, the search marks that row,
      whatever the random start. */
  lemma FoundMoveUniqueRow(s: seq<Byte>, glyph: Byte, rowSum: Word, startRow: nat, startCell: nat, n: nat)
    requires |s| == MaxCells && n < MaxRows && IsMatch(s, Lines[n], rowSum)
    requires forall m :: 0 <= m < MaxRows && m != n ==> !IsMatch(s, Lines[m], rowSum)
    ensures FoundMove(s, glyph, rowSum, startRow, startCell) == Marked(s, Lines[n], glyph, startCell)
  {
    FirstMatchFindsAny(s, rowSum, startRow);
    var k := FirstMatch(s, rowSum, startRow, 0);
    assert (startRow + k) % MaxRows == n;
  }

  /** AnyMatch, row by row. */
  lemma AnyMatchUnrolled(s: seq<Byte>, rowSum: Word)
    requires |s| == MaxCells
    ensures AnyMatch(s, rowSum) <==>
      IsMatch(s, Lines[0], rowSum) || IsMatch(s, Lines[1], rowSum) || IsMatch(s, Lines[2], rowSum) ||
      IsMatch(s, Lines[3], rowSum) || IsMatch(s, Lines[4], rowSum) || IsMatch(s, Lines[5], rowSum) ||
      IsMatch(s, Lines[6], rowSum) || IsMatch(s, Lines[7], rowSum)
  {
    if AnyMatch(s, rowSum) {
      var n :| 0 <= n < MaxRows && IsMatch(s, Lines[n], rowSum);
      assert n == 0 || n == 1 || n == 2 || n == 3 || n == 4 || n == 5 || n == 6 || n == 7;
    }
  }

  class Board {
    const cell: array<Byte>
    const row: seq<Line>

    /** The board has nine cells and the row table of Board::Board. */
    predicate Valid() {
      cell.Length == MaxCells && row == Lines
    }

    /** Board::Board: clears the cells and assigns the eight rows. */
    constructor ()
      ensures Valid() && fresh(cell)
      ensures cell[..] == Cleared
    {
      cell := new Byte[MaxCells];
      row := [
        Row(0, 1, 2), Row(3, 4, 5), Row(6, 7, 8),
        Row(0, 3, 6), Row(1, 4, 7), Row(2, 5, 8),
        Row(0, 4, 8), Row(2, 4, 6)
      ];
      new;
      Clear();
    }

    /** Board::clear: every cell becomes blank. */
    method Clear()
      requires cell.Length == MaxCells
      modifies cell
      ensures cell[..] == Cleared
    {
      forall i | 0 <= i < cell.Length {
        cell[i] := B;
      }
    }

    /** Board::hasWinner: does any row sum to `rowSum`? */
    method HasWinner(rowSum: Word) returns (result: bool)
      requires Valid()
      ensures result <==> AnyMatch(cell[..], rowSum)
    {
      result := false;
      for n := 0 to MaxRows
        invariant !result
        invariant forall j :: 0 <= j < n ==> !IsMatch(cell[..], Lines[j], rowSum)
      {
        if IsMatch(cell[..], row[n], rowSum) {
          result := true;
          break;
        }
      }
    }

    /** Board::findMove: one draw of rand() picks a start row among 0..6,
        the rows are scanned cyclically, and the first one summing to
        `rowSum` is marked (a second draw, inside Row::mark). */
    method FindMove(glyph: Byte, rowSum: Word, rng: Rng) returns (result: bool)
      requires Valid()
      modifies cell, rng
      ensures result <==> AnyMatch(old(cell[..]), rowSum)
      ensures rng.drawn == old(rng.drawn) + (if result then 2 else 1)
      ensures result ==> cell[..] == FoundMove(old(cell[..]), glyph, rowSum,
                                               rng.draw(old(rng.drawn)) % 7, rng.draw(old(rng.drawn) + 1) % 2)
      ensures !result ==> cell[..] == old(cell[..])
    {
      ghost var s0 := cell[..];
      result := false;
      var roll := rng.Rand();
      var startRow: nat := roll % (MaxRows - 1);
      ghost var start := startRow;
      for n := 0 to MaxRows
        invariant startRow == start + n
        invariant cell[..] == s0 && rng.drawn == old(rng.drawn) + 1
        invariant FirstMatch(s0, rowSum, start, 0) == FirstMatch(s0, rowSum, start, n)
      {
        var idx := startRow % MaxRows;
        ScanRowAt(start, n, idx);
        if IsMatch(cell[..], row[idx], rowSum) {
          FirstMatchStep(s0, rowSum, start, n);
          MarkFirstMatch(glyph, rowSum, row[idx], rng, start, n);
          result := true;
          SearchOutcome(s0, glyph, rowSum, rng.draw, old(rng.drawn), start, result, cell[..], rng.drawn);
          break;
        }
        FirstMatchStep(s0, rowSum, start, n);
        startRow := startRow + 1;
      }
      if !result {
        SearchOutcome(s0, glyph, rowSum, rng.draw, old(rng.drawn), start, result, cell[..], rng.drawn);
      }
    }

    /** The call `row[idx].mark(glyph)` of Board::findMove, made when the
        scan from `start` first matches at offset `n`. */
    method MarkFirstMatch(glyph: Byte, rowSum: Word, r: Line, rng: Rng, ghost start: nat, ghost n: nat)
      requires Valid() && n < MaxRows && FirstMatch(cell[..], rowSum, start, 0) == n && r == ScanRow(start, n)
      modifies cell, rng
      ensures AnyMatch(old(cell[..]), rowSum)
      ensures rng.drawn == old(rng.drawn) + 1
      ensures cell[..] == FoundMove(old(cell[..]), glyph, rowSum, start, rng.draw(old(rng.drawn)) % 2)
    {
      FoundMoveAt(cell[..], glyph, rowSum, start, rng.draw(rng.drawn) % 2, n);
      Mark(cell, r, glyph, rng);
    }
  }
}
