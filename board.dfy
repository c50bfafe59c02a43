/** The board: nine tiles in a 3x3 array, whose turn it is, whether the game
    is over, the strike line and the status message. Start, CheckWinner,
    CheckDraw, Move, Reset and Update are proved to take the step the
    TicTacToe module describes, so the lemmas there hold of the board;
    FlipTurn and the line checks are specified directly by the turn they
    negate and by the line functions of the Rules module. */
module Boards {
  import opened Rules
  import opened TicTacToe
  import opened Tiles

  class Board {
    var tiles: array2<Tile?>
    var isXTurn: bool
    var gameOver: bool
    var linePosition: Point
    var lineRotation: int
    /** The strike line object, once one has been drawn. */
    var line: Option<Strike>
    var infoText: string

    /** The tile values, row by row, as Valid ties them to the tiles. */
    ghost var grid: Grid

    /** The tile array and the tiles in it. The board itself is not in it,
        so changing the board's own fields leaves the tiles untouched. */
    ghost var Repr: set<object>

    /** Nine tiles laid out from the top-left corner, each holding its value
        in the grid and with its collider enabled exactly while it is
        empty. */
    ghost predicate Valid()
      reads this`tiles, this`Repr, this`grid, Repr
    {
      this !in Repr && tiles in Repr && tiles.Length0 == 3 && tiles.Length1 == 3 &&
      forall r: Coord, c: Coord {:trigger tiles[r, c]} ::
        tiles[r, c] != null && tiles[r, c] in Repr &&
        tiles[r, c].x == Centre(Pos(r, c)).x && tiles[r, c].y == Centre(Pos(r, c)).y &&
        tiles[r, c].value == grid[Index(r, c)] &&
        (tiles[r, c].colliderEnabled <==> tiles[r, c].value == Empty)
    }

    /** The tiles sit at different places, so they are nine distinct
        objects. */
    lemma TilesDistinct()
      requires Valid()
      ensures forall r: Coord, c: Coord, r': Coord, c': Coord ::
        tiles[r, c] == tiles[r', c'] ==> r == r' && c == c'
    {
    }

    ghost function State(): (g: Game)
      reads this
    {
      Game(grid, isXTurn, gameOver, infoText, linePosition, lineRotation, line)
    }

    /** The scene creates the board and runs its Start. */
    constructor ()
      ensures Valid() && fresh(Repr)
      ensures State() == Initial() && Consistent(State())
    {
      tiles := new Tile?[0, 0];
      line := None;
      grid := EmptyGrid;
      new;
      Start();
      InitialConsistent();
    }

    /** Lays out nine fresh empty tiles, row 0 at the top and column 0 at
        the left, and starts a game with X to move. The strike line object,
        if any, is not touched. */
    method Start()
      modifies this
      ensures Valid() && fresh(Repr)
      ensures State() == Initial().(line := old(line))
    {
      tiles := new Tile?[3, 3];
      Repr := {tiles};
      var row := 0;
      var y := 1;
      while y >= -1
        invariant -2 <= y <= 1 && row == 1 - y
        invariant fresh(tiles) && tiles.Length0 == 3 && tiles.Length1 == 3
        invariant tiles in Repr && fresh(Repr) && line == old(line)
        invariant forall r: Coord, c: Coord {:trigger tiles[r, c]} | r < row ::
          tiles[r, c] != null && tiles[r, c] in Repr &&
          tiles[r, c].x == Centre(Pos(r, c)).x && tiles[r, c].y == Centre(Pos(r, c)).y &&
          tiles[r, c].value == Empty && tiles[r, c].colliderEnabled
      {
        var col := 0;
        var x := -1;
        while x <= 1
          invariant -1 <= x <= 2 && col == x + 1
          invariant fresh(tiles) && tiles.Length0 == 3 && tiles.Length1 == 3
          invariant tiles in Repr && fresh(Repr) && line == old(line)
          invariant forall r: Coord, c: Coord {:trigger tiles[r, c]} | r < row || (r == row && c < col) ::
            tiles[r, c] != null && tiles[r, c] in Repr &&
            tiles[r, c].x == Centre(Pos(r, c)).x && tiles[r, c].y == Centre(Pos(r, c)).y &&
            tiles[r, c].value == Empty && tiles[r, c].colliderEnabled
        {
          var tile := new Tile(x * TileOffset, y * TileOffset);
          tiles[row, col] := tile;
          Repr := Repr + {tile};
          col := col + 1;
          x := x + 1;
        }
        row := row + 1;
        y := y - 1;
      }
      isXTurn := true;
      gameOver := false;
      linePosition := Point(0, 0);
      lineRotation := 0;
      infoText := "";
      grid := EmptyGrid;
      assert forall i | 0 <= i < 9 :: grid[i] == Empty;
    }

    method FlipTurn()
      requires Valid()
      modifies this`isXTurn
      ensures Valid() && isXTurn == !old(isXTurn)
    {
      isXTurn := !isXTurn;
    }

    /** Collects the values of column `col`, top to bottom, and tests them. */
    method CheckCol(col: Coord) returns (same: bool)
      requires Valid()
      ensures same == Complete(grid, Column(col))
    {
      var values: seq<int> := [];
      for i := 0 to 3
        invariant |values| == i
        invariant forall k | 0 <= k < i :: values[k] == At(grid, Pos(k, col))
      {
        var v := tiles[i, col].GetValue();
        values := values + [v];
      }
      same := AllTilesHaveSameValue(values);
    }

    /** Collects the values of row `row`, left to right, and tests them. */
    method CheckRow(row: Coord) returns (same: bool)
      requires Valid()
      ensures same == Complete(grid, Row(row))
    {
      var values: seq<int> := [];
      for i := 0 to 3
        invariant |values| == i
        invariant forall k | 0 <= k < i :: values[k] == At(grid, Pos(row, k))
      {
        var v := tiles[row, i].GetValue();
        values := values + [v];
      }
      same := AllTilesHaveSameValue(values);
    }

    /** Tries the columns left to right; the first complete one sets the
        strike line. */
    method CheckCols() returns (found: bool)
      requires Valid()
      modifies this`linePosition, this`lineRotation
      ensures Valid()
      ensures found <==> FirstCompleteColumn(grid).Some?
      ensures found ==> Strike(linePosition, lineRotation) == StrikeFor(FirstCompleteColumn(grid).value)
      ensures !found ==> linePosition == old(linePosition) && lineRotation == old(lineRotation)
    {
      for i := 0 to 3
        invariant Valid()
        invariant forall k: Coord | k < i :: !Complete(grid, Column(k))
        invariant linePosition == old(linePosition) && lineRotation == old(lineRotation)
      {
        found := CheckCol(i);
        if found {
          linePosition := Point((i * 2) - 2, 0);
          lineRotation := 0;
          assert FirstCompleteColumn(grid) == Some(Column(i));
          return;
        }
      }
      found := false;
    }

    /** Tries the rows top to bottom; the first complete one sets the
        strike line. */
    method CheckRows() returns (found: bool)
      requires Valid()
      modifies this`linePosition, this`lineRotation
      ensures Valid()
      ensures found <==> FirstCompleteRow(grid).Some?
      ensures found ==> Strike(linePosition, lineRotation) == StrikeFor(FirstCompleteRow(grid).value)
      ensures !found ==> linePosition == old(linePosition) && lineRotation == old(lineRotation)
    {
      for i := 0 to 3
        invariant Valid()
        invariant forall k: Coord | k < i :: !Complete(grid, Row(k))
        invariant linePosition == old(linePosition) && lineRotation == old(lineRotation)
      {
        found := CheckRow(i);
        if found {
          linePosition := Point(0, (i * -2) + 2);
          lineRotation := 90;
          assert FirstCompleteRow(grid) == Some(Row(i));
          return;
        }
      }
      found := false;
    }

    method CheckLeftDiagonal() returns (found: bool)
      requires Valid()
      modifies this`linePosition, this`lineRotation
      ensures Valid()
      ensures found == Complete(grid, LeftDiagonal)
      ensures found ==> Strike(linePosition, lineRotation) == StrikeFor(LeftDiagonal)
      ensures !found ==> linePosition == old(linePosition) && lineRotation == old(lineRotation)
    {
      var a := tiles[0, 0].GetValue();
      var b := tiles[1, 1].GetValue();
      var c := tiles[2, 2].GetValue();
      assert [a, b, c] == LineValues(grid, LeftDiagonal);
      found := AllTilesHaveSameValue([a, b, c]);
      if found {
        linePosition := Point(0, 0);
        lineRotation := 45;
      }
    }

    method CheckRightDiagonal() returns (found: bool)
      requires Valid()
      modifies this`linePosition, this`lineRotation
      ensures Valid()
      ensures found == Complete(grid, RightDiagonal)
      ensures found ==> Strike(linePosition, lineRotation) == StrikeFor(RightDiagonal)
      ensures !found ==> linePosition == old(linePosition) && lineRotation == old(lineRotation)
    {
      var a := tiles[0, 2].GetValue();
      var b := tiles[1, 1].GetValue();
      var c := tiles[2, 0].GetValue();
      assert [a, b, c] == LineValues(grid, RightDiagonal);
      found := AllTilesHaveSameValue([a, b, c]);
      if found {
        linePosition := Point(0, 0);
        lineRotation := 135;
      }
    }

    /** The board's winner test: columns, then rows, then the two diagonals,
        stopping at the first check that succeeds, which leaves its strike
        line set. */
    method FindCompleteLine() returns (found: bool)
      requires Valid()
      modifies this`linePosition, this`lineRotation
      ensures Valid()
      ensures found <==> FirstCompleteLine(grid).Some?
      ensures found ==> Strike(linePosition, lineRotation) == StrikeFor(FirstCompleteLine(grid).value)
      ensures !found ==> linePosition == old(linePosition) && lineRotation == old(lineRotation)
    {
      found := CheckCols();
      if found {
        return;
      }
      found := CheckRows();
      if found {
        return;
      }
      found := CheckLeftDiagonal();
      if found {
        return;
      }
      found := CheckRightDiagonal();
    }

    /** Once the game is over, because a line was found now or because it
        already was, the strike line is drawn and the winner message names
        the player whose turn it is. */
    method CheckWinner()
      requires Valid()
      modifies this`gameOver, this`linePosition, this`lineRotation, this`line, this`infoText
      ensures Valid()
      ensures State() == WinnerChecked(old(State()))
    {
      var found := FindCompleteLine();
      if found {
        gameOver := true;
      }
      if gameOver {
        line := Some(Strike(linePosition, lineRotation));
        infoText := WinnerText(isXTurn);
      }
    }

    /** Scans the tiles row by row and stops at the first empty one; if there
        is none the game ends in a draw, replacing any winner message. */
    method CheckDraw()
      requires Valid()
      modifies this`gameOver, this`infoText
      ensures Valid()
      ensures State() == DrawChecked(old(State()))
    {
      var allTilesSet := true;
      var i := 0;
      while i < 9
        invariant 0 <= i <= 9 && allTilesSet
        invariant forall k | 0 <= k < i :: grid[k] != Empty
        invariant gameOver == old(gameOver) && infoText == old(infoText)
      {
        assert Index(i / 3, i % 3) == i;
        var v := tiles[i / 3, i % 3].GetValue();
        if v == Empty {
          assert !IsFull(grid);
          allTilesSet := false;
          break;
        }
        i := i + 1;
      }
      if allTilesSet {
        gameOver := true;
        infoText := DrawText;
      }
    }

    /** A click on the tile at (r, c) while the game runs: the mover's mark
        is written and its sprite shown, then the winner and draw checks run,
        and the turn passes only if the game goes on. */
    method Move(r: Coord, c: Coord)
      requires Valid() && !gameOver
      modifies this`isXTurn, this`gameOver, this`linePosition, this`lineRotation, this`line, this`infoText
      modifies this`grid, tiles[r, c]
      ensures Valid()
      ensures State() == Play(old(State()), Pos(r, c))
    {
      TilesDistinct();
      var tile := tiles[r, c];
      if isXTurn {
        tile.SetValue(X);
        tile.SetSprite();
      } else {
        tile.SetValue(O);
        tile.SetSprite();
      }
      grid := grid[Index(r, c) := MarkOf(isXTurn)];
      assert State() == Placed(old(State()), Pos(r, c));
      CheckWinner();
      CheckDraw();
      if !gameOver {
        FlipTurn();
      }
    }

    /** The reset key: the tiles and the strike line are destroyed and Start
        runs again. */
    method Reset()
      modifies this
      ensures Valid() && fresh(Repr)
      ensures State() == Initial()
    {
      line := None;
      Start();
    }

    /** One frame: a left click on an enabled tile while the game runs makes
        a move; then the reset key, once the game is over, starts a new one.
        Every frame keeps the game consistent. */
    method Update(click: Option<(int, int)>, resetKeyUp: bool)
      requires Valid()
      modifies this, Repr
      ensures Valid() && fresh(Repr - old(Repr))
      ensures State() == Frame(old(State()), click, resetKeyUp)
      ensures old(Consistent(State())) ==> Consistent(State())
    {
      ghost var before := State();
      if !gameOver && click.Some? {
        var (r, c) := click.value;
        if InGrid(r, c) && tiles[r, c].colliderEnabled {
          Move(r, c);
        }
      }
      if gameOver && resetKeyUp {
        Reset();
      }
      if Consistent(before) {
        FrameKeepsConsistent(before, click, resetKeyUp);
      }
    }
  }
}
