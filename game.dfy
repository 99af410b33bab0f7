/** The game (class Game): two players share one board and move in turn
    until one of them completes a row or the player to move finds no
    move.  The winner of a game moves first in the next one. */
module Games {
  import opened Glyphs
  import opened Rows
  import opened Boards
  import opened Players
  import opened Random

  /** The outcome of Game::play (the enum of class Game): a side, a draw,
      or no outcome yet. */
  datatype Winner = PlayerX | PlayerO | Draw | NoWinner

  /** A side of the game; also the index of its player in Game::player. */
  type Side = w: Winner | w == PlayerX || w == PlayerO witness PlayerX

  /** The position of a side's player in Game::player. */
  function Index(side: Side): (i: nat)
    ensures i < 2
  {
    if side == PlayerX then 0 else 1
  }

  /** The glyph of a side's player (Game::Game gives player[X] the glyph
      'X' and player[O] the glyph 'O'). */
  function GlyphOf(side: Side): (g: Byte)
    ensures g == X || g == O
  {
    if side == PlayerX then X else O
  }

  /** The side to move after `side`: `++player_to_move % DRAW`, with X, O
      and DRAW numbered 0, 1 and 2. */
  function Next(side: Side): (o: Side)
    ensures o != side
    ensures GlyphOf(o) != GlyphOf(side)
  {
    if (Index(side) + 1) % 2 == 0 then PlayerX else PlayerO
  }

  /** Two turns bring the move back to the same side. */
  lemma NextTwice(side: Side)
    ensures Next(Next(side)) == side
  {
  }

  /** The row sum that means `side` has won. */
  function Win(side: Side): (w: Word)
    ensures w == SignaturesFor(GlyphOf(side)).win
    ensures side == PlayerX ==> w == G3_X
    ensures side == PlayerO ==> w == G3_O
  {
    SignaturesFor(GlyphOf(side)).win
  }

  /** Neither side has completed a row. */
  predicate NoWin(s: seq<Byte>)
    requires |s| == MaxCells
  {
    !AnyMatch(s, G3_X) && !AnyMatch(s, G3_O)
  }

  /** The state of a game: the outcome so far, the board, and how many
      values of rand() have been used. */
  datatype State = State(winner: Winner, cells: seq<Byte>, drawn: nat)

  /** One turn of the loop in Game::play: the side to move moves; if it
      cannot, the game is a draw; if it now has a complete row, it wins;
      otherwise the game goes on with the board it left. */
  function Turn(s: seq<Byte>, side: Side, draw: nat -> nat, k: nat): (p: State)
    requires WellFormed(s)
    ensures WellFormed(p.cells)
    ensures p.winner == side || p.winner == Draw || p.winner == NoWinner
    ensures p.winner == Draw ==> p.cells == s
    ensures p.winner != Draw ==> Blanks(p.cells) == Blanks(s) - 1
  {
    var glyph := GlyphOf(side);
    var sig := SignaturesFor(glyph);
    SignaturesDistinct(glyph);
    MovedLegal(s, glyph, sig, draw, k);
    var a := Moved(s, glyph, sig, draw, k);
    if !a.ok then State(Draw, a.cells, a.drawn)
    else if AnyMatch(a.cells, sig.win) then State(side, a.cells, a.drawn)
    else State(NoWinner, a.cells, a.drawn)
  }

  /** Game::play from board `s` with `side` to move: turns follow one
      another, the side to move alternating, until one has an outcome.
      Every game ends with a winner or a draw. */
  function Run(s: seq<Byte>, side: Side, draw: nat -> nat, k: nat): (p: State)
    requires WellFormed(s)
    decreases Blanks(s)
    ensures p.winner != NoWinner
    ensures WellFormed(p.cells)
  {
    var t := Turn(s, side, draw, k);
    if t.winner == NoWinner then Run(t.cells, Next(side), draw, t.drawn) else t
  }

  /** The number of cells taken during Run. */
  function Moves(s: seq<Byte>, side: Side, draw: nat -> nat, k: nat): nat
    requires WellFormed(s)
    decreases Blanks(s)
  {
    var t := Turn(s, side, draw, k);
    if t.winner == NoWinner then 1 + Moves(t.cells, Next(side), draw, t.drawn)
    else if t.winner == Draw then 0
    else 1
  }

  /** A move takes one open cell for the mover's glyph, so it cannot give
      the other side a complete row. */
  lemma FillKeepsOtherFromWinning(s: seq<Byte>, c: nat, side: Side)
    requires WellFormed(s) && c < MaxCells && s[c] == B && !AnyMatch(s, Win(Next(side)))
    ensures !AnyMatch(s[c := GlyphOf(side)], Win(Next(side)))
  {
    var t := s[c := GlyphOf(side)];
    var h := GlyphOf(Next(side));
    if AnyMatch(t, Win(Next(side))) {
      var n :| 0 <= n < MaxRows && IsMatch(t, Lines[n], Win(Next(side)));
      var r := Lines[n];
      assert t[r.c0] == h && t[r.c1] == h && t[r.c2] == h;
      assert IsMatch(s, r, Win(Next(side)));
      assert false;
    }
  }

  /** What one turn does, when nobody has won yet: a draw leaves the board
      alone, any other turn takes exactly one open cell for the mover; the
      mover wins exactly when it now has a complete row; the other side
      never gains one; a game that goes on still has no winner. */
  lemma TurnFacts(s: seq<Byte>, side: Side, draw: nat -> nat, k: nat)
    requires WellFormed(s) && NoWin(s)
    ensures var t := Turn(s, side, draw, k);
      (t.winner != Draw ==> exists c :: 0 <= c < MaxCells && s[c] == B && t.cells == s[c := GlyphOf(side)]) &&
      (t.winner == side <==> t.winner != Draw && AnyMatch(t.cells, Win(side))) &&
      !AnyMatch(t.cells, Win(Next(side))) &&
      (t.winner != side ==> NoWin(t.cells))
  {
    var glyph := GlyphOf(side);
    SignaturesDistinct(glyph);
    MovedLegal(s, glyph, SignaturesFor(glyph), draw, k);
    var t := Turn(s, side, draw, k);
    if t.winner != Draw {
      var c :| 0 <= c < MaxCells && s[c] == B && t.cells == s[c := glyph];
      FillKeepsOtherFromWinning(s, c, side);
    }
  }

  /** A game takes at most as many cells as are open, one per move. */
  lemma {:induction false} RunLength(s: seq<Byte>, side: Side, draw: nat -> nat, k: nat)
    requires WellFormed(s)
    decreases Blanks(s)
    ensures Moves(s, side, draw, k) <= Blanks(s) <= MaxCells
    ensures Blanks(Run(s, side, draw, k).cells) == Blanks(s) - Moves(s, side, draw, k)
  {
    var t := Turn(s, side, draw, k);
    if t.winner == NoWinner {
      RunLength(t.cells, Next(side), draw, t.drawn);
    }
  }

  /** The sides alternate, starting with `side`: after m moves the side
      that started has placed (m + 1) / 2 glyphs and the other m / 2. */
  lemma {:induction false} RunAlternates(s: seq<Byte>, side: Side, draw: nat -> nat, k: nat)
    requires WellFormed(s) && NoWin(s)
    decreases Blanks(s)
    ensures var p, m := Run(s, side, draw, k), Moves(s, side, draw, k);
      Occurrences(p.cells, GlyphOf(side)) == Occurrences(s, GlyphOf(side)) + (m + 1) / 2 &&
      Occurrences(p.cells, GlyphOf(Next(side))) == Occurrences(s, GlyphOf(Next(side))) + m / 2
  {
    var t := Turn(s, side, draw, k);
    TurnFacts(s, side, draw, k);
    if t.winner != Draw {
      var c :| 0 <= c < MaxCells && s[c] == B && t.cells == s[c := GlyphOf(side)];
      OccurrencesFill(s, c, GlyphOf(side), GlyphOf(side));
      OccurrencesFill(s, c, GlyphOf(side), GlyphOf(Next(side)));
      if t.winner == NoWinner {
        RunAlternates(t.cells, Next(side), draw, t.drawn);
      }
    }
  }

  /** A win is reported only for the side that made the last move. */
  lemma {:induction false} RunWinnerMovedLast(s: seq<Byte>, side: Side, draw: nat -> nat, k: nat)
    requires WellFormed(s)
    decreases Blanks(s)
    ensures Run(s, side, draw, k).winner != Draw ==> Moves(s, side, draw, k) >= 1
    ensures Run(s, side, draw, k).winner != Draw && Moves(s, side, draw, k) % 2 == 1 ==> Run(s, side, draw, k).winner == side
    ensures Run(s, side, draw, k).winner != Draw && Moves(s, side, draw, k) % 2 == 0 ==> Run(s, side, draw, k).winner == Next(side)
  {
    var t := Turn(s, side, draw, k);
    if t.winner == NoWinner {
      RunWinnerMovedLast(t.cells, Next(side), draw, t.drawn);
      assert Run(s, side, draw, k) == Run(t.cells, Next(side), draw, t.drawn);
      assert Moves(s, side, draw, k) == 1 + Moves(t.cells, Next(side), draw, t.drawn);
      OneMoreMove(Run(t.cells, Next(side), draw, t.drawn).winner, Moves(t.cells, Next(side), draw, t.drawn),
                  Moves(s, side, draw, k), side);
    } else if t.winner == side {
      assert Run(s, side, draw, k) == t;
      assert Moves(s, side, draw, k) == 1;
    } else {
      assert Run(s, side, draw, k).winner == Draw;
    }
  }

  /** Parity of the last mover, one move earlier. */
  lemma OneMoreMove(w: Winner, m: nat, n: nat, side: Side)
    requires n == m + 1
    requires w != Draw && m % 2 == 1 ==> w == Next(side)
    requires w != Draw && m % 2 == 0 ==> w == Next(Next(side))
    ensures w != Draw && n % 2 == 1 ==> w == side
    ensures w != Draw && n % 2 == 0 ==> w == Next(side)
  {
    NextTwice(side);
  }

  /** The side reported as winner has a complete row and the other side
      has none; a draw is reported only when neither side has a complete
      row. */
  lemma {:induction false} RunWinnerRows(s: seq<Byte>, side: Side, draw: nat -> nat, k: nat)
    requires WellFormed(s) && NoWin(s)
    decreases Blanks(s)
    ensures var p := Run(s, side, draw, k);
      (p.winner == Draw ==> NoWin(p.cells)) &&
      (p.winner != Draw ==> AnyMatch(p.cells, Win(p.winner)) && !AnyMatch(p.cells, Win(Next(p.winner))))
  {
    var t := Turn(s, side, draw, k);
    TurnFacts(s, side, draw, k);
    if t.winner == NoWinner {
      RunWinnerRows(t.cells, Next(side), draw, t.drawn);
    } else if t.winner == side {
      NextTwice(side);
    }
  }

  /** A game played by Game::play from the cleared board: it takes at most
      nine moves; the side that moves first places (m + 1) / 2 glyphs and
      the other m / 2; a reported winner made the last move and holds a
      complete row while the other side holds none; a draw leaves neither
      side with a complete row. */
  lemma GameFromCleared(first: Side, draw: nat -> nat, k: nat)
    ensures var p, m := Run(Cleared, first, draw, k), Moves(Cleared, first, draw, k);
      m <= MaxCells &&
      Occurrences(p.cells, GlyphOf(first)) == (m + 1) / 2 &&
      Occurrences(p.cells, GlyphOf(Next(first))) == m / 2 &&
      (p.winner == Draw ==> NoWin(p.cells)) &&
      (p.winner != Draw ==> m >= 1 && p.winner == (if m % 2 == 1 then first else Next(first)) &&
                            AnyMatch(p.cells, Win(p.winner)) && !AnyMatch(p.cells, Win(Next(p.winner))))
  {
    ClearedStart(GlyphOf(first));
    ClearedStart(GlyphOf(Next(first)));
    GameFromEmpty(Cleared, first, draw, k);
  }

  /** The facts of GameFromCleared for any board of glyphs with no glyph
      on it; stated over an arbitrary board so that the proof does not
      unfold the game on the literal cleared board. */
  lemma GameFromEmpty(s: seq<Byte>, first: Side, draw: nat -> nat, k: nat)
    requires WellFormed(s) && NoWin(s)
    requires Occurrences(s, GlyphOf(first)) == 0 && Occurrences(s, GlyphOf(Next(first))) == 0
    ensures var p, m := Run(s, first, draw, k), Moves(s, first, draw, k);
      m <= MaxCells &&
      Occurrences(p.cells, GlyphOf(first)) == (m + 1) / 2 &&
      Occurrences(p.cells, GlyphOf(Next(first))) == m / 2 &&
      (p.winner == Draw ==> NoWin(p.cells)) &&
      (p.winner != Draw ==> m >= 1 && p.winner == (if m % 2 == 1 then first else Next(first)) &&
                            AnyMatch(p.cells, Win(p.winner)) && !AnyMatch(p.cells, Win(Next(p.winner))))
  {
    RunLength(s, first, draw, k);
    RunAlternates(s, first, draw, k);
    RunWinnerMovedLast(s, first, draw, k);
    RunWinnerRows(s, first, draw, k);
  }

  /** The cleared board is a board of glyphs with no glyph on it and no
      complete row. */
  lemma ClearedStart(g: Byte)
    requires g != B
    ensures WellFormed(Cleared) && NoWin(Cleared) && Occurrences(Cleared, g) == 0
  {
    AnyMatchUnrolled(Cleared, G3_X);
    AnyMatchUnrolled(Cleared, G3_O);
    AllBlank(Cleared, g);
  }

  class Game {
    const board: Board
    const player: seq<Player>
    var lastWinner: Winner

    /** Both players play on the game's board, player[X] with 'X' and
        player[O] with 'O'. */
    predicate Valid() {
      board.Valid() && |player| == 2 &&
      player[0].board == board && player[0].glyph == X && player[0].sig == SignaturesFor(X) &&
      player[1].board == board && player[1].glyph == O && player[1].sig == SignaturesFor(O)
    }

    /** Game::Game: no previous winner, a player for each glyph. */
    constructor ()
      ensures Valid() && lastWinner == NoWinner
      ensures fresh(board) && fresh(board.cell)
    {
      var b := new Board();
      var px := new Player(X, b);
      var po := new Player(O, b);
      board := b;
      player := [px, po];
      lastWinner := NoWinner;
    }

    /** Game::play: X moves first exactly when X won the last game; the
        board is cleared and the game runs to its end, whose outcome is
        returned and remembered for the next game. */
    method Play(rng: Rng) returns (winner: Winner)
      requires Valid()
      modifies this, board.cell, rng
      ensures Valid()
      ensures State(winner, board.cell[..], rng.drawn) ==
              Run(Cleared, if old(lastWinner) == PlayerX then PlayerX else PlayerO, rng.draw, old(rng.drawn))
      ensures lastWinner == winner
    {
      winner := NoWinner;
      var toMove: Side := if lastWinner == PlayerX then PlayerX else PlayerO;
      board.Clear();
      ghost var game := Run(Cleared, toMove, rng.draw, rng.drawn);
      while winner == NoWinner
        invariant WellFormed(board.cell[..])
        invariant winner == NoWinner ==> Run(board.cell[..], toMove, rng.draw, rng.drawn) == game
        invariant winner != NoWinner ==> State(winner, board.cell[..], rng.drawn) == game
        decreases if winner == NoWinner then Blanks(board.cell[..]) + 1 else 0
      {
        ghost var open := Blanks(board.cell[..]);
        for i := 0 to 2
          invariant WellFormed(board.cell[..]) && winner == NoWinner
          invariant Run(board.cell[..], toMove, rng.draw, rng.drawn) == game
          invariant Blanks(board.cell[..]) + i == open
        {
          ghost var s := board.cell[..];
          ghost var k := rng.drawn;
          var ok := player[Index(toMove)].Move(rng);
          if !ok {
            TurnDraw(s, toMove, rng.draw, k, board.cell[..], rng.drawn);
            winner := Draw;
            break;
          }
          var won := player[Index(toMove)].IsWinner();
          TurnMoved(s, toMove, rng.draw, k, board.cell[..], rng.drawn, won);
          if won {
            winner := toMove;
            break;
          }
          toMove := Next(toMove);
        }
      }
      lastWinner := winner;
    }
  }

  /** The turn in which the mover finds no move ends the game in a draw. */
  lemma TurnDraw(s: seq<Byte>, side: Side, draw: nat -> nat, k: nat, t: seq<Byte>, drawn: nat)
    requires WellFormed(s)
    requires Attempt(false, t, drawn) == Moved(s, GlyphOf(side), SignaturesFor(GlyphOf(side)), draw, k)
    ensures Turn(s, side, draw, k) == State(Draw, t, drawn)
    ensures Run(s, side, draw, k) == State(Draw, t, drawn)
  {
  }

  /** The turn in which the mover takes a cell ends the game exactly when
      the mover now has a complete row. */
  lemma TurnMoved(s: seq<Byte>, side: Side, draw: nat -> nat, k: nat, t: seq<Byte>, drawn: nat, won: bool)
    requires WellFormed(s)
    requires Attempt(true, t, drawn) == Moved(s, GlyphOf(side), SignaturesFor(GlyphOf(side)), draw, k)
    requires won <==> AnyMatch(t, SignaturesFor(GlyphOf(side)).win)
    ensures WellFormed(t) && Blanks(t) == Blanks(s) - 1
    ensures won ==> Run(s, side, draw, k) == State(side, t, drawn)
    ensures !won ==> Run(s, side, draw, k) == Run(t, Next(side), draw, drawn)
  {
    assert Turn(s, side, draw, k) == State(if won then side else NoWinner, t, drawn);
  }
}
