/** A player (class Player): a glyph, the board it plays on, and the five
    row sums its fixed move policy looks for.

    Row sums, glyphs in any order (B = ' ' = 32, O = 79, X = 88):
      ___ 96   O__ 143   X__ 152   OO_ 190   XO_ 199
      XX_ 208  OOO 237   XOO 246   XXO 255   XXX 264                      */
module Players {
  import opened Glyphs
  import opened Rows
  import opened Boards
  import opened Random

  const G0: Word := B + B + B    // blank row
  const G1_O: Word := O + B + B  // one O, two blanks
  const G1_X: Word := X + B + B  // one X, two blanks
  const G2_O: Word := O + O + B  // two O's, one blank
  const G2_X: Word := X + X + B  // two X's, one blank
  const G3_O: Word := O + O + O  // O has won
  const G3_X: Word := X + X + X  // X has won

  /** The sums a player looks for, from its own point of view. */
  datatype Signatures = Signatures(win: Word, g2Me: Word, g1Me: Word, g2Opp: Word, g1Opp: Word)

  /** The sums Player::Player selects for `glyph`: X's own, or else O's. */
  function SignaturesFor(glyph: Byte): (sig: Signatures)
    ensures glyph == X ==> sig == Signatures(264, 208, 152, 190, 143)
    ensures glyph != X ==> sig == Signatures(237, 190, 143, 208, 152)
  {
    if glyph == X then Signatures(G3_X, G2_X, G1_X, G2_O, G1_O)
    else Signatures(G3_O, G2_O, G1_O, G2_X, G1_X)
  }

  /** The order in which Player::move tries the sums: win, block, extend
      its own row, contest the opponent's row, take an empty row. */
  function Tries(sig: Signatures): seq<Word> {
    [sig.g2Me, sig.g2Opp, sig.g1Me, sig.g1Opp, G0]
  }

  /** A tally seen from `glyph`'s side: `mine` of its glyph, `theirs` of the
      other glyph and `blanks` open cells. */
  function Mixed(glyph: Byte, mine: nat, theirs: nat, blanks: nat): Tally {
    if glyph == X then Tally(blanks, mine, theirs) else Tally(blanks, theirs, mine)
  }

  /** Each signature names exactly one kind of row: on a row of glyphs, a
      match with a signature holds if and only if the row has the glyph
      counts the signature stands for. */
  lemma SignatureMeaning(s: seq<Byte>, r: Row, glyph: Byte)
    requires r.Fits(|s|) && RowOfGlyphs(s, r)
    ensures var sig := SignaturesFor(glyph);
      (IsMatch(s, r, sig.win) <==> TallyOf(s, r) == Mixed(glyph, 3, 0, 0)) &&
      (IsMatch(s, r, sig.g2Me) <==> TallyOf(s, r) == Mixed(glyph, 2, 0, 1)) &&
      (IsMatch(s, r, sig.g2Opp) <==> TallyOf(s, r) == Mixed(glyph, 0, 2, 1)) &&
      (IsMatch(s, r, sig.g1Me) <==> TallyOf(s, r) == Mixed(glyph, 1, 0, 2)) &&
      (IsMatch(s, r, sig.g1Opp) <==> TallyOf(s, r) == Mixed(glyph, 0, 1, 2)) &&
      (IsMatch(s, r, G0) <==> TallyOf(s, r) == Tally(3, 0, 0))
  {
    var sig := SignaturesFor(glyph);
    MatchIffTally(s, r, Mixed(glyph, 3, 0, 0));
    MatchIffTally(s, r, Mixed(glyph, 2, 0, 1));
    MatchIffTally(s, r, Mixed(glyph, 0, 2, 1));
    MatchIffTally(s, r, Mixed(glyph, 1, 0, 2));
    MatchIffTally(s, r, Mixed(glyph, 0, 1, 2));
    MatchIffTally(s, r, Tally(3, 0, 0));
  }

  /** Every tried sum is the sum of a row with an open cell. */
  predicate OpenSums(sig: Signatures) {
    sig.g2Me <= 208 && sig.g2Opp <= 208 && sig.g1Me <= 208 && sig.g1Opp <= 208
  }

  /** The five tried sums and the winning sum are pairwise distinct, and
      every tried sum belongs to a row with an open cell. */
  lemma SignaturesDistinct(glyph: Byte)
    ensures var sig := SignaturesFor(glyph);
      var all := Tries(sig) + [sig.win];
      forall i, j :: 0 <= i < j < |all| ==> all[i] != all[j]
    ensures OpenSums(SignaturesFor(glyph))
  {
  }

  /** The outcome of a move attempt: whether a cell was taken, the board
      afterwards, and how many values of rand() have been used in total. */
  datatype Attempt = Attempt(ok: bool, cells: seq<Byte>, drawn: nat)

  /** A successful Board::findMove for `sum` whose two draws are values
      number k and k+1 of rand(). */
  function Hit(s: seq<Byte>, glyph: Byte, sum: Word, draw: nat -> nat, k: nat): Attempt
    requires |s| == MaxCells
  {
    Attempt(true, FoundMove(s, glyph, sum, draw(k) % 7, draw(k + 1) % 2), k + 2)
  }

  /** Legal play by `glyph` on the board `s`: a move that succeeds takes
      exactly one open cell for the glyph, so one blank fewer remains, and
      a move that fails changes nothing; either way the board keeps
      holding only blanks, X's and O's. */
  predicate LegalMove(s: seq<Byte>, glyph: Byte, a: Attempt) {
    (a.ok ==> exists c :: 0 <= c < |s| && s[c] == B && a.cells == s[c := glyph]) &&
    (a.ok ==> Blanks(a.cells) == Blanks(s) - 1) &&
    (!a.ok ==> a.cells == s) &&
    WellFormed(a.cells)
  }

  /** A successful search for a sum that only open rows have takes one
      open cell for the glyph and nothing else. */
  lemma HitFillsOneBlank(s: seq<Byte>, glyph: Byte, sum: Word, draw: nat -> nat, k: nat, a: Attempt)
    requires WellFormed(s) && (glyph == X || glyph == O) && sum <= 208 && AnyMatch(s, sum)
    requires a == Hit(s, glyph, sum, draw, k)
    ensures a.ok && LegalMove(s, glyph, a)
  {
    FoundMoveFillsOneBlank(s, glyph, sum, draw(k) % 7, draw(k + 1) % 2);
    var c :| 0 <= c < MaxCells && s[c] == B && a.cells == s[c := glyph];
    BlanksFill(s, c, glyph);
    FillKeepsGlyphs(s, c, glyph);
  }

  /** Which search of Player::move succeeds: the sum it was for and the
      number of failed searches before it, or none. */
  datatype Choice = Found(sum: Word, misses: nat) | NoneFound

  /** The searches of Player::move in the order the source writes them:
      win, block, extend its own row, contest the opponent's row, take an
      empty row. */
  function Choose(s: seq<Byte>, sig: Signatures): (c: Choice)
    requires |s| == MaxCells
    ensures c.Found? <==> AnyMatch(s, sig.g2Me) || AnyMatch(s, sig.g2Opp) || AnyMatch(s, sig.g1Me) ||
                          AnyMatch(s, sig.g1Opp) || AnyMatch(s, G0)
    ensures c.Found? ==> c.misses < 5 && c.sum == Tries(sig)[c.misses] && AnyMatch(s, c.sum)
  {
    if AnyMatch(s, sig.g2Me) then Found(sig.g2Me, 0)
    else if AnyMatch(s, sig.g2Opp) then Found(sig.g2Opp, 1)
    else if AnyMatch(s, sig.g1Me) then Found(sig.g1Me, 2)
    else if AnyMatch(s, sig.g1Opp) then Found(sig.g1Opp, 3)
    else if AnyMatch(s, G0) then Found(G0, 4)
    else NoneFound
  }

  /** The position, from i on, of the first sum that some row matches, or
      |sums| when there is none. */
  function FirstHit(s: seq<Byte>, sums: seq<Word>, i: nat): (j: nat)
    requires |s| == MaxCells && i <= |sums|
    decreases |sums| - i
    ensures i <= j <= |sums|
    ensures j < |sums| ==> AnyMatch(s, sums[j])
    ensures forall l {:trigger AnyMatch(s, sums[l])} :: i <= l < j ==> !AnyMatch(s, sums[l])
  {
    if i == |sums| || AnyMatch(s, sums[i]) then i else FirstHit(s, sums, i + 1)
  }

  /** The written-out searches are the priority rule over Tries(sig): the
      first tried sum that some row matches is chosen. */
  lemma ChooseIsFirstHit(s: seq<Byte>, sig: Signatures)
    requires |s| == MaxCells
    ensures var sums, j := Tries(sig), FirstHit(s, Tries(sig), 0);
      Choose(s, sig) == if j < |sums| then Found(sums[j], j) else NoneFound
  {
    var sums := Tries(sig);
    var j := FirstHit(s, sums, 0);
    assert sums[0] == sig.g2Me && sums[1] == sig.g2Opp && sums[2] == sig.g1Me && sums[3] == sig.g1Opp && sums[4] == G0;
    if AnyMatch(s, sig.g2Me) {
      assert j == 0;
    } else if AnyMatch(s, sig.g2Opp) {
      assert j == 1;
    } else if AnyMatch(s, sig.g1Me) {
      assert j == 2;
    } else if AnyMatch(s, sig.g1Opp) {
      assert j == 3;
    } else if AnyMatch(s, G0) {
      assert j == 4;
    } else {
      assert j == 5;
    }
  }

  /** Priority: a search succeeds exactly when some row matches one of the
      tried sums; the chosen sum is then the first of them, in the order of
      Tries(sig), that some row matches. */
  lemma ChoosePriority(s: seq<Byte>, sig: Signatures)
    requires |s| == MaxCells
    ensures var c, sums := Choose(s, sig), Tries(sig);
      (c.Found? <==> exists i {:trigger AnyMatch(s, sums[i])} :: 0 <= i < |sums| && AnyMatch(s, sums[i])) &&
      (c.Found? ==> c.misses < |sums| && c.sum == sums[c.misses] && AnyMatch(s, c.sum) &&
                    forall l {:trigger AnyMatch(s, sums[l])} :: 0 <= l < c.misses ==> !AnyMatch(s, sums[l]))
  {
    ChooseIsFirstHit(s, sig);
    var sums := Tries(sig);
    var j := FirstHit(s, sums, 0);
    if j == |sums| {
      assert forall l :: 0 <= l < |sums| ==> !AnyMatch(s, sums[l]);
    }
  }

  /** One line `ok = ok || board.findMove(glyph, sum)` of Player::move:
      once a search has succeeded the later ones are skipped; otherwise
      one search for `sum` runs on the current board. */
  function Step(a: Attempt, glyph: Byte, sum: Word, draw: nat -> nat): (b: Attempt)
    requires |a.cells| == MaxCells
    ensures |b.cells| == MaxCells
    ensures !b.ok ==> b.cells == a.cells && b.drawn == a.drawn + 1
  {
    if a.ok then a
    else if AnyMatch(a.cells, sum) then Hit(a.cells, glyph, sum, draw, a.drawn)
    else Attempt(false, a.cells, a.drawn + 1)
  }

  /** Player::move as a function of the board and of rand(): the five
      lines of the source, one Step each. */
  function Moved(s: seq<Byte>, glyph: Byte, sig: Signatures, draw: nat -> nat, k: nat): (a: Attempt)
    requires |s| == MaxCells
    ensures |a.cells| == MaxCells
    ensures !a.ok ==> a == Attempt(false, s, k + 5)
  {
    var a1 := Step(Attempt(false, s, k), glyph, sig.g2Me, draw);
    var a2 := Step(a1, glyph, sig.g2Opp, draw);
    var a3 := Step(a2, glyph, sig.g1Me, draw);
    var a4 := Step(a3, glyph, sig.g1Opp, draw);
    Step(a4, glyph, G0, draw)
  }

  /** The lines of Player::move when the winning search succeeds.  This
      lemma and the four after it each settle one branch of MovedIsChoice;
      one lemma per branch keeps each proof obligation small. */
  lemma StepsWin(s: seq<Byte>, glyph: Byte, sig: Signatures, draw: nat -> nat, k: nat)
    requires |s| == MaxCells
    requires AnyMatch(s, sig.g2Me)
    ensures Step(Attempt(false, s, k), glyph, sig.g2Me, draw) == Hit(s, glyph, sig.g2Me, draw, k)
    ensures Step(Hit(s, glyph, sig.g2Me, draw, k), glyph, sig.g2Opp, draw) == Hit(s, glyph, sig.g2Me, draw, k)
    ensures Step(Hit(s, glyph, sig.g2Me, draw, k), glyph, sig.g1Me, draw) == Hit(s, glyph, sig.g2Me, draw, k)
    ensures Step(Hit(s, glyph, sig.g2Me, draw, k), glyph, sig.g1Opp, draw) == Hit(s, glyph, sig.g2Me, draw, k)
    ensures Step(Hit(s, glyph, sig.g2Me, draw, k), glyph, G0, draw) == Hit(s, glyph, sig.g2Me, draw, k)
  {
  }

  /** The lines of Player::move when the blocking search is the first to succeed. */
  lemma StepsBlock(s: seq<Byte>, glyph: Byte, sig: Signatures, draw: nat -> nat, k: nat)
    requires |s| == MaxCells
    requires !AnyMatch(s, sig.g2Me) && AnyMatch(s, sig.g2Opp)
    ensures Step(Attempt(false, s, k), glyph, sig.g2Me, draw) == Attempt(false, s, k + 1)
    ensures Step(Attempt(false, s, k + 1), glyph, sig.g2Opp, draw) == Hit(s, glyph, sig.g2Opp, draw, k + 1)
    ensures Step(Hit(s, glyph, sig.g2Opp, draw, k + 1), glyph, sig.g1Me, draw) == Hit(s, glyph, sig.g2Opp, draw, k + 1)
    ensures Step(Hit(s, glyph, sig.g2Opp, draw, k + 1), glyph, sig.g1Opp, draw) == Hit(s, glyph, sig.g2Opp, draw, k + 1)
    ensures Step(Hit(s, glyph, sig.g2Opp, draw, k + 1), glyph, G0, draw) == Hit(s, glyph, sig.g2Opp, draw, k + 1)
  {
  }

  /** The lines of Player::move when extending its own row is the first search to succeed. */
  lemma StepsExtend(s: seq<Byte>, glyph: Byte, sig: Signatures, draw: nat -> nat, k: nat)
    requires |s| == MaxCells
    requires !AnyMatch(s, sig.g2Me) && !AnyMatch(s, sig.g2Opp) && AnyMatch(s, sig.g1Me)
    ensures Step(Attempt(false, s, k), glyph, sig.g2Me, draw) == Attempt(false, s, k + 1)
    ensures Step(Attempt(false, s, k + 1), glyph, sig.g2Opp, draw) == Attempt(false, s, k + 2)
    ensures Step(Attempt(false, s, k + 2), glyph, sig.g1Me, draw) == Hit(s, glyph, sig.g1Me, draw, k + 2)
    ensures Step(Hit(s, glyph, sig.g1Me, draw, k + 2), glyph, sig.g1Opp, draw) == Hit(s, glyph, sig.g1Me, draw, k + 2)
    ensures Step(Hit(s, glyph, sig.g1Me, draw, k + 2), glyph, G0, draw) == Hit(s, glyph, sig.g1Me, draw, k + 2)
  {
  }

  /** The lines of Player::move when contesting a row of the opponent is the first search to succeed. */
  lemma StepsContest(s: seq<Byte>, glyph: Byte, sig: Signatures, draw: nat -> nat, k: nat)
    requires |s| == MaxCells
    requires !AnyMatch(s, sig.g2Me) && !AnyMatch(s, sig.g2Opp) && !AnyMatch(s, sig.g1Me)
    requires AnyMatch(s, sig.g1Opp)
    ensures Step(Attempt(false, s, k), glyph, sig.g2Me, draw) == Attempt(false, s, k + 1)
    ensures Step(Attempt(false, s, k + 1), glyph, sig.g2Opp, draw) == Attempt(false, s, k + 2)
    ensures Step(Attempt(false, s, k + 2), glyph, sig.g1Me, draw) == Attempt(false, s, k + 3)
    ensures Step(Attempt(false, s, k + 3), glyph, sig.g1Opp, draw) == Hit(s, glyph, sig.g1Opp, draw, k + 3)
    ensures Step(Hit(s, glyph, sig.g1Opp, draw, k + 3), glyph, G0, draw) == Hit(s, glyph, sig.g1Opp, draw, k + 3)
  {
  }

  /** The lines of Player::move when the first four searches fail. */
  lemma StepsOpen(s: seq<Byte>, glyph: Byte, sig: Signatures, draw: nat -> nat, k: nat)
    requires |s| == MaxCells
    requires !AnyMatch(s, sig.g2Me) && !AnyMatch(s, sig.g2Opp) && !AnyMatch(s, sig.g1Me)
    requires !AnyMatch(s, sig.g1Opp)
    ensures Step(Attempt(false, s, k), glyph, sig.g2Me, draw) == Attempt(false, s, k + 1)
    ensures Step(Attempt(false, s, k + 1), glyph, sig.g2Opp, draw) == Attempt(false, s, k + 2)
    ensures Step(Attempt(false, s, k + 2), glyph, sig.g1Me, draw) == Attempt(false, s, k + 3)
    ensures Step(Attempt(false, s, k + 3), glyph, sig.g1Opp, draw) == Attempt(false, s, k + 4)
    ensures Step(Attempt(false, s, k + 4), glyph, G0, draw) ==
      if AnyMatch(s, G0) then Hit(s, glyph, G0, draw, k + 4) else Attempt(false, s, k + 5)
  {
  }

  /** The five lines of Player::move follow the priority rule: the move
      is the first search that succeeds, after one draw for each failed
      search before it, or no change after five failed searches. */
  lemma MovedIsChoice(s: seq<Byte>, glyph: Byte, sig: Signatures, draw: nat -> nat, k: nat)
    requires |s| == MaxCells
    ensures Moved(s, glyph, sig, draw, k) ==
      match Choose(s, sig)
      case Found(sum, misses) => Hit(s, glyph, sum, draw, k + misses)
      case NoneFound => Attempt(false, s, k + 5)
  {
    if AnyMatch(s, sig.g2Me) {
      assert Choose(s, sig) == Found(sig.g2Me, 0);
      StepsWin(s, glyph, sig, draw, k);
    } else if AnyMatch(s, sig.g2Opp) {
      assert Choose(s, sig) == Found(sig.g2Opp, 1);
      StepsBlock(s, glyph, sig, draw, k);
    } else if AnyMatch(s, sig.g1Me) {
      assert Choose(s, sig) == Found(sig.g1Me, 2);
      StepsExtend(s, glyph, sig, draw, k);
    } else if AnyMatch(s, sig.g1Opp) {
      assert Choose(s, sig) == Found(sig.g1Opp, 3);
      StepsContest(s, glyph, sig, draw, k);
    } else {
      StepsOpen(s, glyph, sig, draw, k);
    }
  }

  /** Whether the move succeeds depends only on the searches, and a move
      that fails leaves the board alone after five draws. */
  lemma MovedOk(s: seq<Byte>, glyph: Byte, sig: Signatures, draw: nat -> nat, k: nat)
    requires |s| == MaxCells
    ensures Moved(s, glyph, sig, draw, k).ok <==> Choose(s, sig).Found?
    ensures !Choose(s, sig).Found? ==> Moved(s, glyph, sig, draw, k) == Attempt(false, s, k + 5)
  {
    MovedIsChoice(s, glyph, sig, draw, k);
  }

  /** A move whose search succeeds is that search. */
  lemma MovedHit(s: seq<Byte>, glyph: Byte, sig: Signatures, draw: nat -> nat, k: nat)
    requires |s| == MaxCells && Choose(s, sig).Found?
    ensures Moved(s, glyph, sig, draw, k) == Hit(s, glyph, Choose(s, sig).sum, draw, k + Choose(s, sig).misses)
  {
    MovedIsChoice(s, glyph, sig, draw, k);
  }

  /** Player::move is legal play: it takes exactly one open cell for its
      glyph, or fails after five draws and changes nothing. */
  lemma MovedLegal(s: seq<Byte>, glyph: Byte, sig: Signatures, draw: nat -> nat, k: nat)
    requires WellFormed(s) && (glyph == X || glyph == O) && OpenSums(sig)
    ensures var a := Moved(s, glyph, sig, draw, k);
      LegalMove(s, glyph, a) && (!a.ok ==> a.drawn == k + 5)
  {
    var a0 := Attempt(false, s, k);
    var a1 := Step(a0, glyph, sig.g2Me, draw);
    StepLegal(s, glyph, sig.g2Me, draw, k, a0, a1);
    var a2 := Step(a1, glyph, sig.g2Opp, draw);
    StepLegal(s, glyph, sig.g2Opp, draw, k + 1, a1, a2);
    var a3 := Step(a2, glyph, sig.g1Me, draw);
    StepLegal(s, glyph, sig.g1Me, draw, k + 2, a2, a3);
    var a4 := Step(a3, glyph, sig.g1Opp, draw);
    StepLegal(s, glyph, sig.g1Opp, draw, k + 3, a3, a4);
    var a5 := Step(a4, glyph, G0, draw);
    StepLegal(s, glyph, G0, draw, k + 4, a4, a5);
  }

  /** One search keeps play legal: after `i` failed searches the board is
      still `s` and `k + i` values have been drawn. */
  lemma StepLegal(s: seq<Byte>, glyph: Byte, sum: Word, draw: nat -> nat, k: nat, a: Attempt, b: Attempt)
    requires WellFormed(s) && (glyph == X || glyph == O) && sum <= 208
    requires LegalMove(s, glyph, a) && (!a.ok ==> a.drawn == k)
    requires b == Step(a, glyph, sum, draw)
    ensures LegalMove(s, glyph, b) && (!b.ok ==> b.drawn == k + 1)
  {
    if !a.ok && AnyMatch(a.cells, sum) {
      HitFillsOneBlank(s, glyph, sum, draw, k, b);
    }
  }

  /** A row offers one of the five tried sums exactly when it has an open
      cell and is not the dead mix of one X, one O and one blank. */
  lemma RowOffersMove(s: seq<Byte>, r: Row, glyph: Byte)
    requires r.Fits(|s|) && RowOfGlyphs(s, r) && (glyph == X || glyph == O)
    ensures (exists i :: 0 <= i < 5 && IsMatch(s, r, Tries(SignaturesFor(glyph))[i])) <==>
            HasBlank(s, r) && TallyOf(s, r) != Tally(1, 1, 1)
  {
    SignatureMeaning(s, r, glyph);
    var t := TallyOf(s, r);
    TenDistinctSums();
    assert t in AllTallies;
    var sig := SignaturesFor(glyph);
    if HasBlank(s, r) && t != Tally(1, 1, 1) {
      if t == Tally(3, 0, 0) { assert IsMatch(s, r, Tries(sig)[4]); }
      else if t == Mixed(glyph, 2, 0, 1) { assert IsMatch(s, r, Tries(sig)[0]); }
      else if t == Mixed(glyph, 0, 2, 1) { assert IsMatch(s, r, Tries(sig)[1]); }
      else if t == Mixed(glyph, 1, 0, 2) { assert IsMatch(s, r, Tries(sig)[2]); }
      else { assert IsMatch(s, r, Tries(sig)[3]); }
    }
  }

  /** A row is dead when no glyph can complete it any more: it is full, or
      it holds one X, one O and one blank. */
  predicate Dead(s: seq<Byte>, r: Row)
    requires r.Fits(|s|)
  {
    !HasBlank(s, r) || TallyOf(s, r) == Tally(1, 1, 1)
  }

  /** A move fails exactly when every row is dead.  So a failed move means
      no row can be completed any more, although the board need not be
      full. */
  lemma MoveFailsIffDead(s: seq<Byte>, glyph: Byte, sig: Signatures, draw: nat -> nat, k: nat)
    requires WellFormed(s) && (glyph == X || glyph == O) && sig == SignaturesFor(glyph)
    ensures !Moved(s, glyph, sig, draw, k).ok <==> forall n :: 0 <= n < MaxRows ==> Dead(s, Lines[n])
  {
    MovedOk(s, glyph, sig, draw, k);
    ChoosePriority(s, sig);
    var sums := Tries(sig);
    forall n | 0 <= n < MaxRows
      ensures (exists i :: 0 <= i < 5 && IsMatch(s, Lines[n], sums[i])) <==> !Dead(s, Lines[n])
    {
      assert RowOfGlyphs(s, Lines[n]);
      RowOffersMove(s, Lines[n], glyph);
    }
    if Choose(s, sig).Found? {
      var i :| 0 <= i < |sums| && AnyMatch(s, sums[i]);
      var n :| 0 <= n < MaxRows && IsMatch(s, Lines[n], sums[i]);
      assert !Dead(s, Lines[n]);
    } else {
      forall n | 0 <= n < MaxRows ensures Dead(s, Lines[n]) {
        forall i | 0 <= i < 5 ensures !IsMatch(s, Lines[n], sums[i]) {
          assert !AnyMatch(s, sums[i]);
        }
      }
    }
  }

  /** On a full board the move fails. */
  lemma FullBoardNoMove(s: seq<Byte>, glyph: Byte, sig: Signatures, draw: nat -> nat, k: nat)
    requires WellFormed(s) && Full(s) && (glyph == X || glyph == O) && sig == SignaturesFor(glyph)
    ensures !Moved(s, glyph, sig, draw, k).ok
  {
    MoveFailsIffDead(s, glyph, sig, draw, k);
    forall n | 0 <= n < MaxRows ensures Dead(s, Lines[n]) {
      var r := Lines[n];
      assert s[r.c0] != B;
    }
  }

  /** The converse does not hold: here one cell is open, yet both players'
      moves fail, because every row through cell 8 already holds an X and
      an O.
        X | X | O
        O | O | X
        X | O |                                                          */
  lemma OpenBoardNoMove(draw: nat -> nat, k: nat)
    ensures var s := [X, X, O, O, O, X, X, O, B];
      WellFormed(s) && s[8] == B && !AnyMatch(s, G3_X) && !AnyMatch(s, G3_O) &&
      !Moved(s, X, SignaturesFor(X), draw, k).ok && !Moved(s, O, SignaturesFor(O), draw, k).ok
  {
    var s := [X, X, O, O, O, X, X, O, B];
    forall sum: Word | sum != 199 && sum != 246 && sum != 255
      ensures !AnyMatch(s, sum)
    {
      AnyMatchUnrolled(s, sum);
    }
    MovedOk(s, X, SignaturesFor(X), draw, k);
    MovedOk(s, O, SignaturesFor(O), draw, k);
  }

  /** Winning comes before blocking: X, to move, holds two of the top row
      while O holds two of the bottom row; X completes the top row rather
      than block, whatever rand() returns.
        X | X |
          |   |
        O | O |                                                          */
  lemma WinBeforeBlock(draw: nat -> nat, k: nat)
    ensures var s := [X, X, B, B, B, B, O, O, B];
      AnyMatch(s, G2_O) && Moved(s, X, SignaturesFor(X), draw, k).cells == s[2 := X]
  {
    var s := [X, X, B, B, B, B, O, O, B];
    assert Sum(s, Lines[0]) == 208 && Sum(s, Lines[1]) == 96 && Sum(s, Lines[2]) == 190;
    assert Sum(s, Lines[3]) == 199 && Sum(s, Lines[4]) == 199 && Sum(s, Lines[5]) == 96;
    assert Sum(s, Lines[6]) == 152 && Sum(s, Lines[7]) == 143;
    assert IsMatch(s, Lines[0], G2_X) && IsMatch(s, Lines[2], G2_O);
    MovedHit(s, X, SignaturesFor(X), draw, k);
    HitOnUniqueRow(s, X, G2_X, draw, k, 0, 2);
  }

  /** Blocking comes before extending: O holds two of the top row and X,
      to move, could extend its middle row; X takes the last cell of the
      top row, whatever rand() returns.
        O | O |
          | X |
          |   |                                                          */
  lemma BlockBeforeExtend(draw: nat -> nat, k: nat)
    ensures var s := [O, O, B, B, X, B, B, B, B];
      AnyMatch(s, G1_X) && Moved(s, X, SignaturesFor(X), draw, k).cells == s[2 := X]
  {
    var s := [O, O, B, B, X, B, B, B, B];
    assert Sum(s, Lines[0]) == 190 && Sum(s, Lines[1]) == 152 && Sum(s, Lines[2]) == 96;
    assert Sum(s, Lines[3]) == 143 && Sum(s, Lines[4]) == 199 && Sum(s, Lines[5]) == 96;
    assert Sum(s, Lines[6]) == 199 && Sum(s, Lines[7]) == 152;
    assert IsMatch(s, Lines[0], G2_O) && IsMatch(s, Lines[1], G1_X);
    AnyMatchUnrolled(s, G2_X);
    MovedHit(s, X, SignaturesFor(X), draw, k);
    HitOnUniqueRow(s, X, G2_O, draw, k + 1, 0, 2);
  }

  /** A search for a sum that one row only has marks that row; when `c`
      is the row's only open cell, the search takes `c`.  The eight rows
      are listed one by one rather than under a quantifier, so that callers
      on a concrete board discharge each with one row sum. */
  lemma HitOnUniqueRow(s: seq<Byte>, glyph: Byte, sum: Word, draw: nat -> nat, j: nat, n: nat, c: nat)
    requires |s| == MaxCells && n < MaxRows && IsMatch(s, Lines[n], sum)
    requires (n == 0 || !IsMatch(s, Lines[0], sum)) && (n == 1 || !IsMatch(s, Lines[1], sum)) &&
             (n == 2 || !IsMatch(s, Lines[2], sum)) && (n == 3 || !IsMatch(s, Lines[3], sum)) &&
             (n == 4 || !IsMatch(s, Lines[4], sum)) && (n == 5 || !IsMatch(s, Lines[5], sum)) &&
             (n == 6 || !IsMatch(s, Lines[6], sum)) && (n == 7 || !IsMatch(s, Lines[7], sum))
    requires (c == Lines[n].c0 || c == Lines[n].c1 || c == Lines[n].c2) && s[c] == B
    requires forall i :: 0 <= i < |s| && (i == Lines[n].c0 || i == Lines[n].c1 || i == Lines[n].c2) && i != c ==> s[i] != B
    ensures Hit(s, glyph, sum, draw, j).cells == s[c := glyph]
  {
    forall m | 0 <= m < MaxRows && m != n ensures !IsMatch(s, Lines[m], sum) {
      assert m == 0 || m == 1 || m == 2 || m == 3 || m == 4 || m == 5 || m == 6 || m == 7;
    }
    FoundMoveUniqueRow(s, glyph, sum, draw(j) % 7, draw(j + 1) % 2, n);
    OnlyBlankOfRow(s, Lines[n], glyph, draw(j + 1) % 2, c);
  }

  /** Marking a row whose only open cell is `c` takes `c`. */
  lemma OnlyBlankOfRow(s: seq<Byte>, r: Row, glyph: Byte, start: nat, c: nat)
    requires r.Fits(|s|) && (c == r.c0 || c == r.c1 || c == r.c2) && s[c] == B
    requires forall i :: 0 <= i < |s| && (i == r.c0 || i == r.c1 || i == r.c2) && i != c ==> s[i] != B
    ensures Marked(s, r, glyph, start) == s[c := glyph]
  {
    var t := Marked(s, r, glyph, start);
    assert HasBlank(s, r);
    var k :| 0 <= k < 3 && s[r.Scan(start, k)] == B && t == s[r.Scan(start, k) := glyph];
    assert r.Scan(start, k) == c;
  }

  class Player {
    const glyph: Byte
    const board: Board
    const sig: Signatures

    /** Player::Player: binds the player to its glyph and board and selects
        its sums. */
    constructor (glyph: Byte, board: Board)
      ensures this.glyph == glyph && this.board == board
      ensures sig == SignaturesFor(glyph)
    {
      this.glyph := glyph;
      this.board := board;
      sig := SignaturesFor(glyph);
    }

    /** Player::isWinner: some row holds three of the player's glyph. */
    method IsWinner() returns (w: bool)
      requires board.Valid()
      ensures w <==> AnyMatch(board.cell[..], sig.win)
    {
      w := board.HasWinner(sig.win);
    }

    /** Player::move: try the sums in priority order, stop at the first
        search that succeeds. */
    method Move(rng: Rng) returns (ok: bool)
      requires board.Valid()
      modifies board.cell, rng
      ensures Attempt(ok, board.cell[..], rng.drawn) == Moved(old(board.cell[..]), glyph, sig, rng.draw, old(rng.drawn))
    {
      ok := false;
      ok := OrFindMove(ok, sig.g2Me, rng);     // win
      ok := OrFindMove(ok, sig.g2Opp, rng);    // block
      ok := OrFindMove(ok, sig.g1Me, rng);     // extend my row
      ok := OrFindMove(ok, sig.g1Opp, rng);    // contest their row
      ok := OrFindMove(ok, G0, rng);           // take an empty row
    }

    /** The expression `ok || board.findMove(glyph, sum)`. */
    method OrFindMove(ok: bool, sum: Word, rng: Rng) returns (r: bool)
      requires board.Valid()
      modifies board.cell, rng
      ensures Attempt(r, board.cell[..], rng.drawn) == Step(Attempt(ok, old(board.cell[..]), old(rng.drawn)), glyph, sum, rng.draw)
    {
      if ok {
        r := true;
      } else {
        r := board.FindMove(glyph, sum, rng);
      }
    }
  }
}
