/** Cell contents of the 3x3 board.  Every cell holds the ASCII code of a
    character: 'X' and 'O' for the two players, ' ' for an open cell. */
module Glyphs {

  /** An unsigned 8-bit value: a cell or a glyph (uint8_t). */
  type Byte = b: int | 0 <= b < 0x100

  /** An unsigned 16-bit value: a row sum (uint16_t). */
  type Word = w: int | 0 <= w < 0x1_0000

  const X: Byte := 88  // 'X'
  const O: Byte := 79  // 'O'
  const B: Byte := 32  // ' ', a blank cell

  /** Number of cells on the board (Board::MAX_CELLS). */
  const MaxCells: nat := 9

  /** A cell value that the game itself ever writes. */
  predicate IsGlyph(c: int) {
    c == B || c == X || c == O
  }

  /** A board of nine cells, each blank or holding one of the two glyphs. */
  predicate WellFormed(s: seq<Byte>) {
    |s| == MaxCells && forall i :: 0 <= i < |s| ==> IsGlyph(s[i])
  }

  /** No cell is blank. */
  predicate Full(s: seq<Byte>) {
    forall i :: 0 <= i < |s| ==> s[i] != B
  }

  /** The board as `Board::clear` leaves it: every cell blank. */
  const Cleared: seq<Byte> := [B, B, B, B, B, B, B, B, B]

  /** The number of blank cells. */
  function Blanks(s: seq<Byte>): (n: nat)
    ensures n <= |s|
    ensures n == 0 <==> Full(s)
  {
    if s == [] then 0 else (if s[0] == B then 1 else 0) + Blanks(s[1..])
  }

  /** Filling a blank cell with a glyph removes exactly one blank. */
  lemma {:induction false} BlanksFill(s: seq<Byte>, i: nat, g: Byte)
    requires i < |s| && s[i] == B && g != B
    ensures Blanks(s[i := g]) == Blanks(s) - 1
  {
    if i > 0 {
      BlanksFill(s[1..], i - 1, g);
      assert s[i := g][1..] == s[1..][i - 1 := g];
    }
  }

  /** Writing a glyph into a board of glyphs leaves a board of glyphs. */
  lemma FillKeepsGlyphs(s: seq<Byte>, i: nat, g: Byte)
    requires WellFormed(s) && i < |s| && IsGlyph(g)
    ensures WellFormed(s[i := g])
  {
  }

  /** The number of cells holding `g`. */
  function Occurrences(s: seq<Byte>, g: Byte): (n: nat)
    ensures n <= |s|
  {
    if s == [] then 0 else (if s[0] == g then 1 else 0) + Occurrences(s[1..], g)
  }

  /** Filling a blank cell with `g` adds one `g` and leaves the count of
      every other non-blank value alone. */
  lemma {:induction false} OccurrencesFill(s: seq<Byte>, i: nat, g: Byte, h: Byte)
    requires i < |s| && s[i] == B && h != B
    ensures Occurrences(s[i := g], h) == Occurrences(s, h) + (if h == g then 1 else 0)
  {
    if i > 0 {
      OccurrencesFill(s[1..], i - 1, g, h);
      assert s[i := g][1..] == s[1..][i - 1 := g];
    }
  }

  /** A board of blanks holds no glyph. */
  lemma {:induction false} AllBlank(s: seq<Byte>, g: Byte)
    requires g != B && forall i :: 0 <= i < |s| ==> s[i] == B
    ensures Occurrences(s, g) == 0 && Blanks(s) == |s|
  {
    if s != [] {
      AllBlank(s[1..], g);
    }
  }
}
