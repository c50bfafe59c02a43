/** The board's game state as a value, and the steps the board takes on it:
    the tile write of a move, the winner check, the draw check, a whole
    move (which flips the turn when the game goes on), and a whole frame of
    input (a click, then the reset key). The Board class is proved to follow
    these steps; the lemmas here say what the steps guarantee. */
module TicTacToe {
  import opened Rules

  /** Everything the board keeps between frames. `line` is the strike line
      object, present once one has been drawn; `linePosition` and
      `lineRotation` are the board's fields it was drawn from. */
  datatype Game = Game(
    grid: Grid,
    xTurn: bool,
    over: bool,
    info: string,
    linePosition: Point,
    lineRotation: int,
    line: Option<Strike>)

  const NewGameHint := "\nPress R to start a new game"
  const DrawText := "Draw" + NewGameHint

  /** The winner message names the player whose turn it is. */
  function WinnerText(xTurn: bool): (text: string) {
    "The winner is " + (if xTurn then "X" else "O") + NewGameHint
  }

  function MarkOf(xTurn: bool): (mark: int) {
    if xTurn then X else O
  }

  /** The state the board's Start leaves: nine empty tiles, X to move, the
      game running, no message and no strike line. */
  function Initial(): (g: Game) {
    Game(EmptyGrid, true, false, "", Point(0, 0), 0, None)
  }

  /** The tile write of an accepted move: the mover's mark, overwriting
      whatever the tile held. */
  function Placed(g: Game, p: Pos): (after: Game) {
    g.(grid := g.grid[Index(p.row, p.col) := MarkOf(g.xTurn)])
  }

  /** The winner check: the first complete line ends the game and fixes the
      strike line; once the game is over the strike line is drawn and the
      winner message names the player whose turn it is. */
  function WinnerChecked(g: Game): (after: Game) {
    var found := FirstCompleteLine(g.grid);
    var g1 :=
      if found.Some? then
        g.(over := true,
           linePosition := StrikeFor(found.value).position,
           lineRotation := StrikeFor(found.value).rotation)
      else g;
    if g1.over then
      g1.(line := Some(Strike(g1.linePosition, g1.lineRotation)), info := WinnerText(g1.xTurn))
    else g1
  }

  /** The draw check: a full board ends the game with the draw message,
      whatever the winner check said before it. */
  function DrawChecked(g: Game): (after: Game) {
    if IsFull(g.grid) then g.(over := true, info := DrawText) else g
  }

  /** A whole accepted move: write the mark, check for a winner, check for a
      draw, and pass the turn only if the game goes on. */
  function Play(g: Game, p: Pos): (after: Game)
    requires !g.over
  {
    var g1 := DrawChecked(WinnerChecked(Placed(g, p)));
    if g1.over then g1 else g1.(xTurn := !g1.xTurn)
  }

  /** One frame of input. `click` is the grid position under a left click,
      if there was one; it is taken only while the game runs and only when
      that tile's collider is still enabled, which is when the tile is
      empty. Then the reset key, honoured only once the game is over. */
  function Frame(g: Game, click: Option<(int, int)>, resetKeyUp: bool): (after: Game) {
    var g1 :=
      match click
      case Some((r, c)) =>
        if !g.over && InGrid(r, c) && g.grid[Index(r, c)] == Empty then Play(g, Pos(r, c)) else g
      case None => g;
    if g1.over && resetKeyUp then Initial() else g1
  }

  // ----------------------------------------------------------- invariant

  /** Marks alternate starting with X: while the game runs, X has placed as
      many marks as O when it is X's turn and one more otherwise; once it is
      over, the player whose turn it still is placed the last mark. */
  ghost predicate Balanced(g: Game) {
    var lead := Count(g.grid, X) - Count(g.grid, O);
    if g.over then lead == (if g.xTurn then 1 else 0)
    else lead == (if g.xTurn then 0 else 1)
  }

  /** What holds of every state the board can reach from Start. */
  ghost predicate Consistent(g: Game) {
    WellFormed(g.grid) && Balanced(g) &&
    (g.over <==> FirstCompleteLine(g.grid).Some? || IsFull(g.grid)) &&
    match FirstCompleteLine(g.grid)
    case None =>
      g.line == None && g.linePosition == Point(0, 0) && g.lineRotation == 0 &&
      g.info == (if IsFull(g.grid) then DrawText else "")
    case Some(l) =>
      At(g.grid, LineTiles(l)[0]) == MarkOf(g.xTurn) &&
      g.line == Some(StrikeFor(l)) &&
      g.linePosition == StrikeFor(l).position && g.lineRotation == StrikeFor(l).rotation &&
      g.info == (if IsFull(g.grid) then DrawText else WinnerText(g.xTurn))
  }

  /** A fresh board: every tile empty, X to move, nothing drawn. */
  lemma {:induction false} FreshGameConsistent(g: Game)
    requires forall i | 0 <= i < 9 :: g.grid[i] == Empty
    requires g.xTurn && !g.over && g.info == "" && g.line == None
    requires g.linePosition == Point(0, 0) && g.lineRotation == 0
    ensures Consistent(g)
  {
    forall l: Line
      ensures !Complete(g.grid, l)
    {
      assert At(g.grid, LineTiles(l)[0]) == Empty;
    }
    assert !IsFull(g.grid) by { assert g.grid[0] == Empty; }
    CountAbsent(g.grid, X);
    CountAbsent(g.grid, O);
  }

  lemma InitialConsistent()
    ensures Consistent(Initial())
  {
    var g := Initial();
    assert forall i | 0 <= i < 9 :: g.grid[i] == Empty;
    FreshGameConsistent(g);
  }

  /** A line that a single write completes runs through the written tile,
      so all three of its tiles hold the written value. */
  lemma NewlyCompleteLineHoldsMove(grid: Grid, i: nat, m: int, l: Line)
    requires i < 9 && !Complete(grid, l) && Complete(grid[i := m], l)
    ensures forall k | 0 <= k < 3 :: At(grid[i := m], LineTiles(l)[k]) == m
  {
  }

  /** An accepted move keeps the game consistent: the counts stay balanced,
      the game is over exactly when a line is complete or the board full,
      the strike line lies on the first complete line, and the winner named
      is the player who owns that line, the one who just moved. */
  lemma PlayKeepsConsistent(g: Game, p: Pos)
    requires Consistent(g) && !g.over && At(g.grid, p) == Empty
    ensures Consistent(Play(g, p))
  {
    var i := Index(p.row, p.col);
    var m := MarkOf(g.xTurn);
    var grid := g.grid[i := m];
    var after := Play(g, p);
    assert after.grid == grid;
    assert WellFormed(grid);
    CountUpdate(g.grid, i, m, X);
    CountUpdate(g.grid, i, m, O);
    assert FirstCompleteLine(g.grid).None?;
    match FirstCompleteLine(grid)
    case None =>
    case Some(l) =>
      NoWinnerMeansNoCompleteLine(g.grid, l);
      ReportedLineIsComplete(grid);
      NewlyCompleteLineHoldsMove(g.grid, i, m, l);
      assert after.xTurn == g.xTurn;
  }

  /** Every frame keeps the game consistent. */
  lemma FrameKeepsConsistent(g: Game, click: Option<(int, int)>, resetKeyUp: bool)
    requires Consistent(g)
    ensures Consistent(Frame(g, click, resetKeyUp))
  {
    InitialConsistent();
    match click
    case Some((r, c)) =>
      if !g.over && InGrid(r, c) && g.grid[Index(r, c)] == Empty {
        PlayKeepsConsistent(g, Pos(r, c));
      }
    case None =>
  }

  /** In a consistent state X has placed as many marks as O, or one more. */
  lemma MarksAlternate(g: Game)
    requires Consistent(g)
    ensures Count(g.grid, X) == Count(g.grid, O) || Count(g.grid, X) == Count(g.grid, O) + 1
    ensures !g.over ==> (g.xTurn <==> Count(g.grid, X) == Count(g.grid, O))
  {
  }

  /** An accepted move writes the mover's mark on the chosen tile and on no
      other; the turn passes exactly when the game goes on, and the game is
      over exactly when a line is complete or the board is full. */
  lemma PlayMovesOnce(g: Game, p: Pos)
    requires !g.over
    ensures var after := Play(g, p);
      At(after.grid, p) == (if g.xTurn then X else O) &&
      (forall q: Pos | q != p :: At(after.grid, q) == At(g.grid, q)) &&
      (after.over <==> FirstCompleteLine(after.grid).Some? || IsFull(after.grid)) &&
      (after.xTurn <==> (if after.over then g.xTurn else !g.xTurn))
  {
    var after := Play(g, p);
    forall q: Pos | q != p
      ensures At(after.grid, q) == At(g.grid, q)
    {
      assert Index(q.row, q.col) != Index(p.row, p.col);
    }
  }

  // ---------------------------------------------------------------- gating

  /** Once the game is over, clicks change nothing. */
  lemma ClicksIgnoredWhenOver(g: Game, click: Option<(int, int)>)
    requires g.over
    ensures Frame(g, click, false) == g
  {
  }

  /** A click on no tile, on a tile already marked, or after the game ended
      leaves the board exactly as it was; there is no error result. */
  lemma RejectedClickChangesNothing(g: Game, r: int, c: int)
    requires InGrid(r, c) ==> g.over || g.grid[Index(r, c)] != Empty
    ensures Frame(g, Some((r, c)), false) == g
  {
  }

  /** The reset key does nothing while the game runs: it only takes effect
      in a frame whose click ended the game, or after the game ended. */
  lemma ResetOnlyWhenOver(g: Game, click: Option<(int, int)>)
    requires !Frame(g, click, false).over
    ensures Frame(g, click, true) == Frame(g, click, false)
  {
  }

  /** A finished game ends only through a reset, which restores the initial
      state. */
  lemma OverClearedOnlyByReset(g: Game, click: Option<(int, int)>, resetKeyUp: bool)
    requires g.over && !Frame(g, click, resetKeyUp).over
    ensures resetKeyUp && Frame(g, click, resetKeyUp) == Initial()
  {
  }

  /** A frame ends a running game only with a complete line or a full board. */
  lemma OverOnlyByWinOrDraw(g: Game, click: Option<(int, int)>)
    requires Consistent(g) && !g.over
    ensures var after := Frame(g, click, false);
      after.over ==> FirstCompleteLine(after.grid).Some? || IsFull(after.grid)
  {
    FrameKeepsConsistent(g, click, false);
  }

  // ------------------------------------------------------------- scenarios

  /** A winning move that also fills the board: X completes the main
      diagonal on the last empty tile. The strike line is drawn, but the
      draw check runs after the winner check and replaces its message. */
  lemma DrawMessageReplacesWinner(before: Game)
    requires before.grid == [X, O, X, O, X, O, O, X, Empty] && before.xTurn && !before.over
    ensures var after := Play(before, Pos(2, 2));
      after.over && after.xTurn &&
      FirstCompleteLine(after.grid) == Some(LeftDiagonal) &&
      after.line == Some(StrikeFor(LeftDiagonal)) &&
      after.info == DrawText
  {
    var placed := Placed(before, Pos(2, 2));
    var grid := placed.grid;
    assert grid == [X, O, X, O, X, O, O, X, X];
    assert !Complete(grid, Column(0)) && !Complete(grid, Column(1)) && !Complete(grid, Column(2));
    assert !Complete(grid, Row(0)) && !Complete(grid, Row(1)) && !Complete(grid, Row(2));
    var won := WinnerChecked(placed);
    assert won.over && won.line == Some(StrikeFor(LeftDiagonal));
    FullByTiles(grid);
    assert Play(before, Pos(2, 2)) == DrawChecked(won);
  }

  /** A move that completes no line and leaves an empty tile only writes
      the mark and passes the turn. */
  lemma QuietMove(g: Game, r: Coord, c: Coord, grid: Grid)
    requires !g.over && g.grid[Index(r, c)] == Empty
    requires grid == g.grid[Index(r, c) := MarkOf(g.xTurn)]
    requires FirstCompleteLine(grid).None? && !IsFull(grid)
    ensures Frame(g, Some((r, c)), false) == g.(grid := grid, xTurn := !g.xTurn)
  {
  }

  /** X takes the top row while O holds two tiles of the main diagonal: the
      row is reported, X is named, and the strike line runs across row 0. */
  lemma TopRowWins(g4: Game)
    requires g4.grid == [X, X, Empty, Empty, O, Empty, Empty, Empty, O] && g4.xTurn && !g4.over
    ensures var g5 := Frame(g4, Some((0, 2)), false);
      g5.over && g5.xTurn && FirstCompleteLine(g5.grid) == Some(Row(0)) &&
      g5.line == Some(Strike(Point(0, 2), 90)) &&
      g5.info == WinnerText(true)
  {
    var e := Empty;
    var grid5: Grid := [X, X, X, e, O, e, e, e, O];
    assert Placed(g4, Pos(0, 2)).grid == grid5;
    assert !Complete(grid5, Column(0)) && !Complete(grid5, Column(1)) && !Complete(grid5, Column(2));
    assert !IsFull(grid5) by { assert grid5[3] == e; }
  }
}
