/** A row of the board (class Row): three cells that together form one of the
    winning lines.  The source keeps three pointers into the board's cell
    array; here a row is the triple of their indices, and every read or
    write goes through the cell array itself. */
module Rows {
  import opened Glyphs
  import opened Random

  datatype Row = Row(c0: nat, c1: nat, c2: nat) {
    /** All three indices address a cell of an `n`-cell board. */
    predicate Fits(n: nat) {
      c0 < n && c1 < n && c2 < n
    }

    /** The k-th cell of the row (Row::c[k]). */
    function At(k: nat): (i: nat)
      requires k < 3
      ensures i == c0 || i == c1 || i == c2
    {
      if k == 0 then c0 else if k == 1 then c1 else c2
    }

    /** The j-th cell visited by a cyclic scan that starts at offset `start`. */
    function Scan(start: nat, j: nat): (i: nat)
      ensures i == c0 || i == c1 || i == c2
    {
      At((start + j) % 3)
    }

    /** A scan of three steps visits every cell of the row. */
    lemma ScanVisitsAll(start: nat)
      ensures {Scan(start, 0), Scan(start, 1), Scan(start, 2)} == {c0, c1, c2}
    {
      var m := start % 3;
      assert (start + 1) % 3 == (m + 1) % 3 && (start + 2) % 3 == (m + 2) % 3;
    }
  }

  /** The three cells of the row all hold a glyph or a blank. */
  predicate RowOfGlyphs(s: seq<Byte>, r: Row)
    requires r.Fits(|s|)
  {
    IsGlyph(s[r.c0]) && IsGlyph(s[r.c1]) && IsGlyph(s[r.c2])
  }

  /** Some cell of the row is blank. */
  predicate HasBlank(s: seq<Byte>, r: Row)
    requires r.Fits(|s|)
  {
    s[r.c0] == B || s[r.c1] == B || s[r.c2] == B
  }

  /** The sum of the character codes of the row's cells. */
  function Sum(s: seq<Byte>, r: Row): int
    requires r.Fits(|s|)
  {
    s[r.c0] as int + s[r.c1] as int + s[r.c2] as int
  }

  /** How many blanks, X's and O's a row holds, in any order. */
  datatype Tally = Tally(blanks: nat, xs: nat, os: nat) {
    predicate Complete() {
      blanks + xs + os == 3
    }
  }

  /** The row sum that a row with tally `t` has under the ASCII encoding. */
  function Code(t: Tally): int {
    B * t.blanks + X * t.xs + O * t.os
  }

  function Count(s: seq<Byte>, r: Row, g: Byte): nat
    requires r.Fits(|s|)
  {
    (if s[r.c0] == g then 1 else 0) + (if s[r.c1] == g then 1 else 0) + (if s[r.c2] == g then 1 else 0)
  }

  function TallyOf(s: seq<Byte>, r: Row): (t: Tally)
    requires r.Fits(|s|)
    ensures RowOfGlyphs(s, r) ==> t.Complete()
  {
    Tally(Count(s, r, B), Count(s, r, X), Count(s, r, O))
  }

  /** Row::check and Row::isMatch (the two have the same body): the row's
      cells sum to `rowSum`.  On a row of glyphs a match also tells whether
      the row is open: it is exactly when the matched sum is at most 208. */
  predicate IsMatch(s: seq<Byte>, r: Row, rowSum: Word)
    requires r.Fits(|s|)
    ensures IsMatch(s, r, rowSum) && RowOfGlyphs(s, r) ==> (HasBlank(s, r) <==> rowSum <= 208)
  {
    Sum(s, r) == rowSum
  }

  /** The ten tallies a row can have, in increasing order of their code:
      ___ O__ X__ OO_ XO_ XX_ OOO XOO XXO XXX. */
  const AllTallies: seq<Tally> := [
    Tally(3, 0, 0), Tally(2, 0, 1), Tally(2, 1, 0), Tally(1, 0, 2), Tally(1, 1, 1),
    Tally(1, 2, 0), Tally(0, 0, 3), Tally(0, 1, 2), Tally(0, 2, 1), Tally(0, 3, 0)
  ]

  /** The ten possible row sums are 96, 143, 152, 190, 199, 208, 237, 246,
      255 and 264, pairwise distinct: the encoding is injective. */
  lemma {:induction false} TenDistinctSums()
    ensures forall t: Tally :: t.Complete() <==> t in AllTallies
    ensures |AllTallies| == 10
    ensures forall i, j :: 0 <= i < j < |AllTallies| ==> Code(AllTallies[i]) < Code(AllTallies[j])
    ensures Code(AllTallies[0]) == 96 && Code(AllTallies[1]) == 143 && Code(AllTallies[2]) == 152
    ensures Code(AllTallies[3]) == 190 && Code(AllTallies[4]) == 199 && Code(AllTallies[5]) == 208
    ensures Code(AllTallies[6]) == 237 && Code(AllTallies[7]) == 246 && Code(AllTallies[8]) == 255
    ensures Code(AllTallies[9]) == 264
  {
    forall t: Tally | t.Complete() ensures t in AllTallies {
      assert t.blanks <= 3 && t.xs <= 3;
    }
  }

  /** On a row of glyphs, the row sum is the code of the row's tally. */
  lemma SumIsCode(s: seq<Byte>, r: Row)
    requires r.Fits(|s|) && RowOfGlyphs(s, r)
    ensures Sum(s, r) == Code(TallyOf(s, r))
  {
  }

  /** A row sum fixes the multiset of glyphs in the row. */
  lemma CodeInjective(t1: Tally, t2: Tally)
    requires t1.Complete() && t2.Complete()
    requires Code(t1) == Code(t2)
    ensures t1 == t2
  {
    TenDistinctSums();
    var i :| 0 <= i < |AllTallies| && AllTallies[i] == t1;
    var j :| 0 <= j < |AllTallies| && AllTallies[j] == t2;
    assert i == j;
  }

  /** On a row of glyphs, matching the code of a tally means holding exactly
      that tally. */
  lemma MatchIffTally(s: seq<Byte>, r: Row, t: Tally)
    requires r.Fits(|s|) && RowOfGlyphs(s, r) && t.Complete() && Code(t) < 0x1_0000
    ensures IsMatch(s, r, Code(t)) <==> TallyOf(s, r) == t
  {
    SumIsCode(s, r);
    if IsMatch(s, r, Code(t)) {
      CodeInjective(TallyOf(s, r), t);
    }
  }

  /** On a row of glyphs, the sum shows whether a cell is open: every sum
      of a row with a blank is at most 208 (XX_), every sum of a full row at
      least 237 (OOO). */
  lemma HasBlankIffSmallSum(s: seq<Byte>, r: Row)
    requires r.Fits(|s|) && RowOfGlyphs(s, r)
    ensures HasBlank(s, r) <==> Sum(s, r) <= 208
  {
  }

  /** The offset, counted from `start`, of the first blank cell of the row in
      the cyclic order start, start+1, start+2 (mod 3), looking no earlier
      than offset `n`; 3 when there is none. */
  function FirstBlank(s: seq<Byte>, r: Row, start: nat, n: nat): (k: nat)
    requires r.Fits(|s|) && n <= 3
    decreases 3 - n
    ensures n <= k <= 3
    ensures k < 3 ==> s[r.Scan(start, k)] == B
    ensures forall j :: n <= j < k ==> s[r.Scan(start, j)] != B
  {
    if n == 3 then 3
    else if s[r.Scan(start, n)] == B then n
    else FirstBlank(s, r, start, n + 1)
  }

  /** What Row::mark does to the board: it writes `glyph` into the first
      blank cell of the row in the cyclic order start, start+1, start+2, and
      leaves the board alone when no cell of the row is blank. */
  function Marked(s: seq<Byte>, r: Row, glyph: Byte, start: nat): (t: seq<Byte>)
    requires r.Fits(|s|)
    ensures |t| == |s|
    ensures !HasBlank(s, r) ==> t == s
    ensures HasBlank(s, r) ==>
      exists k :: 0 <= k < 3 && s[r.Scan(start, k)] == B &&
        (forall j :: 0 <= j < k ==> s[r.Scan(start, j)] != B) &&
        t == s[r.Scan(start, k) := glyph]
  {
    var k := FirstBlank(s, r, start, 0);
    if k < 3 then s[r.Scan(start, k) := glyph]
    else
      assert !HasBlank(s, r) by {
        assert s[r.Scan(start, 0)] != B && s[r.Scan(start, 1)] != B && s[r.Scan(start, 2)] != B;
        r.ScanVisitsAll(start);
      }
      s
  }

  /** At most one cell changes: it belongs to the row, it was blank, and it
      now holds the glyph. */
  lemma MarkedChangesOneBlank(s: seq<Byte>, r: Row, glyph: Byte, start: nat)
    requires r.Fits(|s|)
    ensures var t := Marked(s, r, glyph, start);
      t == s || exists i :: 0 <= i < |s| && (i == r.c0 || i == r.c1 || i == r.c2) && s[i] == B && t == s[i := glyph]
    ensures HasBlank(s, r) ==> Marked(s, r, glyph, start) != s || glyph == B
  {
    var t := Marked(s, r, glyph, start);
    if HasBlank(s, r) {
      var k :| 0 <= k < 3 && s[r.Scan(start, k)] == B && t == s[r.Scan(start, k) := glyph];
      var i := r.Scan(start, k);
      assert glyph != B ==> t[i] != s[i];
    }
  }

  /** Row::mark: one draw of rand() picks the start offset 0 or 1, then the
      row's cells are scanned cyclically for a blank one. */
  method Mark(cells: array<Byte>, r: Row, glyph: Byte, rng: Rng)
    requires r.Fits(cells.Length)
    modifies cells, rng
    ensures rng.drawn == old(rng.drawn) + 1
    ensures cells[..] == Marked(old(cells[..]), r, glyph, rng.draw(old(rng.drawn)) % 2)
  {
    ghost var s0 := cells[..];
    var roll := rng.Rand();
    var startCell: nat := roll % 2;
    ghost var start := startCell;
    for n := 0 to 3
      invariant startCell == start + n
      invariant cells[..] == s0
      invariant FirstBlank(s0, r, start, 0) == FirstBlank(s0, r, start, n)
    {
      var idx := startCell % 3;
      if cells[r.At(idx)] == B {
        cells[r.At(idx)] := glyph;
        break;
      }
      startCell := startCell + 1;
    }
  }
}
