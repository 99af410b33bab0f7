# Tic-tac-toe self-play engine (sconnet/tictactoe), modelled in Dafny

The program `tictactoe.cpp` plays tic-tac-toe against itself. Both players follow one fixed rule. They win if they can, else block, else extend their own row, else contest the opponent's row, else take any open row. `rand()` only decides which of several equally good rows and cells is taken.

The program needs no search to know what a row holds. A cell stores the ASCII code of `'X'` (88), `'O'` (79) or `' '` (32), and a row is recognised by the sum of its three codes. This model covers the classes of that file:

- **Glyphs** (`glyphs.dfy`): cell values, the 9-cell board, blanks and glyph counts.
- **Random** (`random.dfy`): `rand()` as an arbitrary stream of naturals. `Rng` is a class whose `drawn` counter says how many values have been used.
- **Rows** (`rows.dfy`): `Row::check`, `Row::isMatch` and `Row::mark`, and the proof that the row-sum encoding is injective. The ten possible sums 96 … 264 are pairwise distinct.
- **Boards** (`board.dfy`): `Board::Board`, `Board::clear`, `Board::hasWinner` and `Board::findMove`. The board is a class over a 9-cell `array`; the eight rows are the index triples of the source's topology table.
- **Players** (`player.dfy`): the player's row sums, `Player::move` with its priority order, and `Player::isWinner`.
- **Games** (`game.dfy`): `Game::Game` and `Game::play` with `last_winner`, together with the facts about a whole game. Every game ends; a game takes at most nine moves; the players alternate; a reported winner made the last move and owns a complete row.

Methods that change the board are proved against functions of the old state. `Board.FindMove` is proved against `FoundMove`, `Player.Move` against `Moved`, and `Game.Play` against `Run`. The lemmas about a move and about a game are proved about those functions.

Each call of `rand()` is one value of the stream `draw`. `findMove` draws one value to pick the starting row (`% 7`). When it finds a row, `mark` draws one more to pick the starting cell (`% 2`). A failed search therefore uses one value and a successful one uses two. Every contract says which values were used.

Where the comments of the source and its code differ, the model follows the code:

- The comment after the five searches of `Player::move` says the board must be full when they all fail. In fact they fail exactly when every row is full or holds one X, one O and one blank (`Players.MoveFailsIffDead`). That can happen with an open cell (`Players.OpenBoardNoMove`). `Game::play` then reports a draw, which is the right outcome because no row can be completed.
- The table of row sums in the comment above `class Player` leaves out 199, the sum of a row with one X, one O and a blank. The model lists all ten sums (`Rows.TenDistinctSums`).
- The comments on the constants `G2_O` … `G3_X` swap X and O. The model uses the values the code computes.

`Row::check` and `Row::isMatch` have the same body and are modelled once, as `Rows.IsMatch`. The source's `findMove` starts its scan at `rand() % (MAX_ROWS-1)`, so row 7 is never the first row tried; `mark` starts at `rand() % 2`, so cell 2 is never the first cell tried. The model keeps both constants.

## Model

| member | source | states |
|---|---|---|
| Random.Rng.constructor | tictactoe.cpp:87 | the stream of `rand()` values is fixed and none has been used |
| Random.Rng.Rand | tictactoe.cpp:87 | one call of `rand()` returns the next value of the stream and uses it up |
| Rows.TenDistinctSums | tictactoe.cpp:218-228 | a row of blanks, X's and O's has exactly ten possible contents up to order, whose sums are 96, 143, 152, 190, 199, 208, 237, 246, 255, 264, strictly increasing |
| Rows.CodeInjective | tictactoe.cpp:218-228 | two row contents with the same sum are the same contents |
| Rows.IsMatch | tictactoe.cpp:63-71 | `Row::check` and `Row::isMatch`: the three cells sum to the given value; on a row of glyphs a matched sum is at most 208 exactly when the row has an open cell |
| Rows.MatchIffTally | tictactoe.cpp:63-71 | `isMatch` with the sum of a content holds if and only if the row holds exactly that content |
| Rows.HasBlankIffSmallSum | tictactoe.cpp:218-228 | a row has an open cell if and only if its sum is at most 208 |
| Rows.FirstBlank | tictactoe.cpp:84-101 | the first open cell in cyclic order from the start offset: it is blank and every cell scanned before it is not |
| Rows.Marked | tictactoe.cpp:84-101 | marking writes the glyph into the first open cell in cyclic order from the start offset, and changes nothing when the row is full |
| Rows.MarkedChangesOneBlank | tictactoe.cpp:84-101 | marking changes at most one cell, a blank cell of the row, to the glyph; it changes one when the row has an open cell |
| Rows.Mark | tictactoe.cpp:84-101 | `Row::mark` draws one value and leaves the board as `Marked` with start offset `value % 2` |
| Boards.LinesAreTheWinningLines | tictactoe.cpp:145-156 | the table `Lines`, one entry per `assign` call, holds exactly the eight collinear triples of the 3x3 grid |
| Boards.FirstMatch | tictactoe.cpp:186-208 | the first row in cyclic scan order that matches the sum; no earlier row matches |
| Boards.FirstMatchFindsAny | tictactoe.cpp:186-208 | the eight-step cyclic scan finds a row if and only if some row matches the sum, whatever the start row |
| Boards.FoundMove | tictactoe.cpp:186-208 | what `findMove` does to the board for given start row and start cell: the board is unchanged, or the first matching row in cyclic scan order from the start row is marked |
| Boards.FoundMoveMarksFirstMatch | tictactoe.cpp:186-208 | a successful search marks the first matching row in scan order |
| Boards.FoundMoveNone | tictactoe.cpp:186-208 | a search that finds no row leaves the board unchanged |
| Boards.FoundMoveFillsOneBlank | tictactoe.cpp:186-208 | for the sum of a row with an open cell, a successful search turns exactly one blank cell into the glyph |
| Boards.FoundMoveUniqueRow | tictactoe.cpp:186-208 | when only one row matches, the search marks that row whatever the start row |
| Boards.Board.constructor | tictactoe.cpp:140-157 | a new board has nine blank cells and the eight rows of the topology table |
| Boards.Board.Clear | tictactoe.cpp:123-126 | every cell becomes blank |
| Boards.Board.HasWinner | tictactoe.cpp:170-184 | the result is true if and only if some row matches the sum |
| Boards.Board.FindMove | tictactoe.cpp:186-208 | the result is true if and only if some row matches the sum; one value is drawn on a miss and two on a hit; a hit leaves `FoundMove` of the old board; a miss leaves the board unchanged |
| Boards.Board.MarkFirstMatch | tictactoe.cpp:197-201 | marking the first matching row of the scan draws one value and leaves `FoundMove` of the old board |
| Players.SignaturesFor | tictactoe.cpp:260-278 | X looks for 264, 208, 152, 190, 143 (win, two, one of its own, two, one of the other's) and O for 237, 190, 143, 208, 152 |
| Players.Player.constructor | tictactoe.cpp:269-278 | the player keeps its glyph and board and selects the sums for its glyph |
| Players.SignatureMeaning | tictactoe.cpp:218-228 | each of the player's sums matches a row if and only if the row holds the glyph counts the sum stands for |
| Players.SignaturesDistinct | tictactoe.cpp:260-278 | the five tried sums and the winning sum are pairwise distinct, and every tried sum belongs to a row with an open cell |
| Players.Choose | tictactoe.cpp:280-301 | the written-out priority chain: a sum is chosen exactly when some row matches one of the five tried sums, and the chosen sum is some row's sum at its own position in the priority order |
| Players.FirstHit | tictactoe.cpp:280-301 | the first tried sum that some row matches; no earlier one matches |
| Players.ChooseIsFirstHit | tictactoe.cpp:280-301 | the five written-out searches choose the first tried sum that some row matches |
| Players.ChoosePriority | tictactoe.cpp:280-301 | a sum is chosen if and only if some row matches one of the five tried sums, and the chosen sum is the first such in priority order |
| Players.Step | tictactoe.cpp:285-297 | one `ok = ok \|\| findMove(glyph, sum)` line: when it leaves `ok` false, the board is unchanged and one value was drawn |
| Players.Moved | tictactoe.cpp:280-301 | `Player::move` as a function of the board and the stream: a failed move leaves the board unchanged after five draws |
| Players.MovedIsChoice | tictactoe.cpp:280-301 | the move is the one successful search for the chosen sum after the failed searches before it, or five failed searches |
| Players.MovedOk | tictactoe.cpp:280-301 | the move succeeds if and only if some tried sum matches; a failed move leaves the board and uses five values |
| Players.MovedHit | tictactoe.cpp:280-301 | a successful move is the search for the chosen sum |
| Players.StepLegal | tictactoe.cpp:285-297 | one `ok = ok \|\| findMove` line keeps the move legal and uses one value per failed search |
| Players.HitFillsOneBlank | tictactoe.cpp:186-208 | a successful search for an open-row sum takes exactly one blank cell for the glyph |
| Players.MovedLegal | tictactoe.cpp:280-301 | a successful move takes exactly one open cell for the player's glyph, one blank fewer; a failed move changes nothing and uses five values; the board keeps holding only glyphs |
| Players.RowOffersMove | tictactoe.cpp:280-301 | a row matches one of the five tried sums if and only if it has an open cell and is not one X, one O, one blank |
| Players.MoveFailsIffDead | tictactoe.cpp:280-301 | the move fails if and only if every row is full or holds one X, one O and one blank |
| Players.FullBoardNoMove | tictactoe.cpp:299-300 | on a full board the move fails |
| Players.OpenBoardNoMove | tictactoe.cpp:299-300 | a board with an open cell on which both players' moves fail and neither has won |
| Players.WinBeforeBlock | tictactoe.cpp:284-288 | X completes its own row rather than block O's two-in-a-row, whatever `rand()` returns |
| Players.BlockBeforeExtend | tictactoe.cpp:286-291 | X blocks O's two-in-a-row rather than extend its own row, whatever `rand()` returns |
| Players.HitOnUniqueRow | tictactoe.cpp:186-208 | a search for a sum that only one row matches takes that row's only open cell |
| Players.Player.IsWinner | tictactoe.cpp:243-246 | true if and only if some row holds three of the player's glyph |
| Players.Player.Move | tictactoe.cpp:280-301 | the result, board and draws are those of `Moved` on the old board |
| Players.Player.OrFindMove | tictactoe.cpp:285-297 | `ok \|\| findMove(glyph, sum)`: nothing happens when `ok` holds, otherwise one search runs |
| Games.Next | tictactoe.cpp:382-383 | the other player moves next, with the other glyph |
| Games.NextTwice | tictactoe.cpp:382-383 | after two turns the same player moves again |
| Games.Win | tictactoe.cpp:243-246 | the winning sum of a player is 264 for X and 237 for O |
| Games.Turn | tictactoe.cpp:370-383 | one turn either declares a draw and leaves the board, or takes one open cell, keeping the board well formed; only the mover can be declared winner |
| Games.TurnFacts | tictactoe.cpp:370-383 | a turn that does not end in a draw takes one open cell for the mover; the mover wins if and only if it now has a complete row; the other side never gains one |
| Games.Run | tictactoe.cpp:355-391 | every game ends with a winner or a draw, on a well-formed board |
| Games.RunLength | tictactoe.cpp:355-391 | a game makes at most as many moves as there are open cells, and each move removes one open cell |
| Games.RunAlternates | tictactoe.cpp:355-391 | the players alternate: after m moves the first mover has placed (m + 1) / 2 glyphs and the other m / 2 |
| Games.RunWinnerMovedLast | tictactoe.cpp:355-391 | a reported winner made the last move: the first mover after an odd number of moves, the other after an even one |
| Games.RunWinnerRows | tictactoe.cpp:355-391 | the reported winner has a complete row and the other side has none; a draw leaves neither with a complete row |
| Games.GameFromCleared | tictactoe.cpp:355-391 | a game from the cleared board takes at most nine moves, alternates, and reports a winner who moved last and owns a complete row |
| Games.GameFromEmpty | tictactoe.cpp:355-391 | the facts of `GameFromCleared` for a game started on any board of glyphs that holds no X and no O |
| Games.TurnDraw | tictactoe.cpp:370-374 | a failed move ends the game in a draw on the unchanged board |
| Games.TurnMoved | tictactoe.cpp:376-383 | after a successful move the game is won by the mover when `isWinner` holds and otherwise continues with the other player |
| Games.Game.constructor | tictactoe.cpp:334-344 | a new game has no last winner, a new board and a player for each glyph on that board |
| Games.Game.Play | tictactoe.cpp:355-391 | X moves first exactly when X won the last game; the board is cleared; the outcome, board and draws are those of `Run` from the cleared board; the outcome becomes the last winner |

## Left out

- `main` (tictactoe.cpp:399-437): argument parsing, the loop over games, the statistics and their printing are I/O around the core.
- `Board::print` writes to the console and is not modelled. The commented-out call in `Game::play` is not modelled either.
- `rand()` and `srand()` are not modelled. The model takes an arbitrary stream of naturals, so every property holds for every seed and every generator.
- `Game::~Game`, the `new`/`delete` of the two players and the `assert`s on their pointers are not modelled. The players are two objects that the game holds, and they are never freed.
- randtest.cpp is not part of this model.
- `Row::assign` is not a separate member. A row keeps three pointers into the board's cells; the model keeps their three indices, so a write through a row is a write to the board's cell array, as the aliasing in the source makes it. The eight `assign` calls of the constructor are the table `Boards.Lines`.
- The `uint8_t` counters `start_cell` of `Row::mark` and `start_row` of `Board::findMove` could wrap around, but they never exceed 4 and 14, so the model counts with unbounded naturals.
- `last_winner` and `player_to_move` are `uint8_t` values of an anonymous enum in the source. The model uses the enumeration `Winner` and its two-value subset `Side`.
