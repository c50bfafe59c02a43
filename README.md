# Tic-tac-toe board, modelled in Dafny

This project models the game logic of a Unity tic-tac-toe game: the `Board`
behaviour that lays out nine tiles, takes clicks, checks for a winner or a
draw and resets on the R key, and the `Tile` behaviour that stores one mark
and disables its click collider once the mark is shown.

The model has four modules:

- `Rules` (rules.dfy) holds the fixed rules.
  - Tile values: -1 for empty, 1 for X, 2 for O.
  - The eight lines, and the board's test for a finished line (`AllTilesHaveSameValue`).
  - The order in which the board tries the lines (`Rank`, `FirstCompleteLine`).
  - Mark counting.
  - The geometry of the tile centres and of the strike line drawn over a win.
- `TicTacToe` (tictactoe.dfy) holds the board's state as a value (`Game`) and the steps the board takes on it.
  - The steps: the tile write of a move, the winner check, the draw check, a whole move, and a whole frame of input.
  - The invariant `Consistent`, which every reachable state satisfies, and the lemmas about these steps.
- `Tiles` (tile.dfy) holds the `Tile` class, with its `value` and `colliderEnabled` fields.
- `Boards` (board.dfy) holds the `Board` class.
  - It keeps a 3x3 `array2` of tiles and the board's fields.
  - `Start`, `CheckWinner`, `CheckDraw`, `Move`, `Reset` and `Update` are proved to change the board exactly as the matching `TicTacToe` step says (`Start`: `Initial` with the strike line kept; `CheckWinner`: `WinnerChecked`; `CheckDraw`: `DrawChecked`; `Move`: `Play`; `Reset`: `Initial`; `Update`: `Frame`).
  - `FlipTurn` and the line checks `CheckCol` to `FindCompleteLine` are specified directly: the negated turn, `Complete`, `FirstCompleteColumn`, `FirstCompleteRow`, `FirstCompleteLine` and `StrikeFor`.
  - `Update` is proved to keep `Consistent`.
  - The ghost predicate `Valid` ties the tile objects to a ghost `grid` of their values. It also states that a tile's collider is enabled exactly while the tile is empty.

Tile positions are whole numbers: tile (r, c) is centred at x = 2c - 2, y = 2 - 2r. Strike-line angles are whole degrees (0, 45, 90, 135).

## Model

| member | source | states |
|---|---|---|
| Tiles.Tile.constructor | Assets/Scripts/Tile.cs:14-19 | A new tile sits where it was instantiated, holds -1 (empty) and has its collider enabled |
| Tiles.Tile.SetValue | Assets/Scripts/Tile.cs:21-24 | Stores its argument with no check of the old value and touches no other field, so the collider is left as it was |
| Tiles.Tile.GetValue | Assets/Scripts/Tile.cs:26-29 | Returns the stored value and changes nothing |
| Tiles.Tile.SetSprite | Assets/Scripts/Tile.cs:31-36 | Disables the collider and touches no other field, so the value is left as it was |
| Rules.CompleteMeansOneMark | Assets/Scripts/Board.cs:228-233 | On a grid of -1, 1 and 2 values, a line passes the board's test exactly when its three tiles all hold the same mark, X or O |
| Rules.FirstCompleteLineIsFirst | Assets/Scripts/Board.cs:110 | The reported line is complete and no line tried before it is; in the order columns 0..2, rows 0..2, main diagonal, anti-diagonal. No line is reported exactly when no line is complete |
| Rules.FirstCompleteLineIs | Assets/Scripts/Board.cs:110 | Conversely, a complete line with no complete line before it in that order is the one reported |
| Rules.NoWinnerMeansNoCompleteLine | Assets/Scripts/Board.cs:110 | When no line is reported, no line of any kind is complete |
| Rules.ReportedLineIsComplete | Assets/Scripts/Board.cs:110-113 | A reported line is complete |
| Rules.StrikeCrossesLine | Assets/Scripts/Board.cs:144-226 | The strike line set for a winning column, row or diagonal is centred on that line's middle tile, as laid out by `Start` (line 37). It passes through the centres of all three of the line's tiles |
| TicTacToe.InitialConsistent | Assets/Scripts/Board.cs:28-48 | The state `Start` leaves satisfies the invariant: no line is complete, the board is not full, the counts are zero, and there is no message and no strike line |
| TicTacToe.PlayKeepsConsistent | Assets/Scripts/Board.cs:67-86 | An accepted move on an empty tile keeps the invariant. The X and O counts stay balanced. The game is over exactly when a line is complete or the board is full. The strike line lies on the first complete line. The named winner owns that line, because the turn is not flipped once the game is over |
| TicTacToe.FrameKeepsConsistent | Assets/Scripts/Board.cs:53-101 | Every frame, whatever the click and the key, keeps the invariant |
| TicTacToe.MarksAlternate | Assets/Scripts/Board.cs:68-86 | In every reachable state X has as many marks as O or one more; while the game runs, it is X's turn exactly when the counts are equal |
| TicTacToe.PlayMovesOnce | Assets/Scripts/Board.cs:68-86 | A move writes 1 on X's turn and 2 on O's turn to the chosen tile and to no other. The game is then over exactly when a line is complete or the board is full, and the turn passes exactly when it is not |
| TicTacToe.ClicksIgnoredWhenOver | Assets/Scripts/Board.cs:55 | Once the game is over, a click changes nothing |
| TicTacToe.RejectedClickChangesNothing | Assets/Scripts/Board.cs:55-65 | A click outside the grid, on a marked tile (whose collider is disabled) or after the game ended leaves the state exactly as it was |
| TicTacToe.ResetOnlyWhenOver | Assets/Scripts/Board.cs:92 | The R key has no effect unless the game is over after the frame's click |
| TicTacToe.OverClearedOnlyByReset | Assets/Scripts/Board.cs:92-100 | A finished game becomes unfinished only through the R key, which restores the initial state |
| TicTacToe.OverOnlyByWinOrDraw | Assets/Scripts/Board.cs:108-142 | A frame ends a running game only with a complete line or a full board |
| TicTacToe.DrawMessageReplacesWinner | Assets/Scripts/Board.cs:81-82 | When X completes the main diagonal on the last empty tile, the game is over, the strike line is drawn, X keeps the turn, and the draw message replaces the winner message |
| TicTacToe.QuietMove | Assets/Scripts/Board.cs:81-86 | A move that completes no line and leaves an empty tile only writes the mark and passes the turn |
| TicTacToe.TopRowWins | Assets/Scripts/Board.cs:110-121 | X completing the top row, while O holds two diagonal tiles, is reported as row 0. X is named the winner and the strike line is at (0, 2) with angle 90 |
| Boards.Board.constructor | Assets/Scripts/Board.cs:28-51 | A new board is valid, in the initial state, and that state satisfies the invariant |
| Boards.Board.Start | Assets/Scripts/Board.cs:28-48 | Lays out nine fresh empty tiles with enabled colliders, with row 0 at the top and column 0 at the left. Sets X to move, the game running, the strike-line fields zero and the message empty. The strike line object is left alone |
| Boards.Board.FlipTurn | Assets/Scripts/Board.cs:103-106 | Negates the turn and changes nothing else |
| Boards.Board.CheckCol | Assets/Scripts/Board.cs:158-166 | Collects column `col` top to bottom; the result is true exactly when that column is complete |
| Boards.Board.CheckRow | Assets/Scripts/Board.cs:182-190 | Collects row `row` left to right; the result is true exactly when that row is complete |
| Boards.Board.CheckCols | Assets/Scripts/Board.cs:144-156 | True exactly when some column is complete; then the strike-line fields are those of the leftmost complete column, otherwise they are unchanged |
| Boards.Board.CheckRows | Assets/Scripts/Board.cs:168-180 | True exactly when some row is complete; then the strike-line fields are those of the topmost complete row, otherwise they are unchanged |
| Boards.Board.CheckLeftDiagonal | Assets/Scripts/Board.cs:192-208 | True exactly when tiles (0,0), (1,1), (2,2) hold the same mark; then the strike line is at the origin with angle 45, otherwise it is unchanged |
| Boards.Board.CheckRightDiagonal | Assets/Scripts/Board.cs:210-226 | True exactly when tiles (0,2), (1,1), (2,0) hold the same mark; then the strike line is at the origin with angle 135, otherwise it is unchanged |
| Boards.Board.FindCompleteLine | Assets/Scripts/Board.cs:110 | The short-circuit chain of the four checks is true exactly when some line is complete. The strike-line fields end up as those of the first complete line in the board's order |
| Boards.Board.CheckWinner | Assets/Scripts/Board.cs:108-123 | Takes the winner-check step: a found line ends the game. Once the game is over, the strike line is drawn and the message names the player whose turn it is |
| Boards.Board.CheckDraw | Assets/Scripts/Board.cs:125-142 | Stops at the first empty tile. When there is none, it ends the game with the draw message, overwriting any winner message |
| Boards.Board.Move | Assets/Scripts/Board.cs:67-86 | Writes the mover's mark to the clicked tile and disables its collider. Then it checks for a winner, then for a draw, and flips the turn only if the game goes on: exactly the `Play` step |
| Boards.Board.Reset | Assets/Scripts/Board.cs:92-100 | Drops the strike line and restarts: the board is back in the initial state |
| Boards.Board.Update | Assets/Scripts/Board.cs:53-101 | One frame is exactly the `Frame` step: a click on an enabled tile while the game runs is a move, then the R key resets a finished game. A consistent state stays consistent |

## Left out

- Mouse input, the camera ray and the 2D raycast (Board.cs lines 55-65) are not modelled. A click is an input: the grid position of the tile whose collider was hit, if any. A click outside the grid hits no tile.
- Boards.Board.Update: the source loops over every raycast hit and every tile, so two overlapping colliders could be hit in one frame. The model takes at most one tile per frame, assuming the tile colliders, 2 units apart, do not overlap.
- Unity's object lifecycle is not modelled: `Instantiate`, `Destroy`, `GetComponent` and the scheduling of `Start` callbacks.
  - A tile is modelled as created and started in one step. In the source its `Start` runs a frame later, and its value is 0 until then.
  - `Reset` models the destruction of the old tiles and line as dropping the references.
- Tiles.Tile.constructor: the `Tile(float, float)` constructor (Tile.cs lines 9-12) is never called by the board and is not modelled. The constructor here stands for `Instantiate` at a position followed by `Tile.Start`.
- Rendering and audio are not modelled: sprites, the sprite colour, `localScale` (including `lineScale`), audio clips and playback.
  - `SetSprite` keeps only the collider it disables.
  - Positions drop the z coordinate.
  - Rotations are whole degrees about z rather than quaternions.
- The message text is a plain string field; its on-screen rendering is not modelled.
- `AllTilesHaveSameValue` takes the three tile values rather than the list of tiles; the board reads those values with `GetValue` first.
- Error results for an occupied or out-of-grid cell, or for a move after the game ended, are not modelled, because the code has none. Such a click is silently ignored (`RejectedClickChangesNothing`).
  - An occupied tile cannot be clicked only because its collider is disabled; `Valid` states that a collider is enabled exactly while its tile is empty.
  - `SetValue` overwrites any mark. `PlayMovesOnce` shows this for the `Play` step, which has no emptiness requirement.
