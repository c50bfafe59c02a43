/** The fixed rules of the 3x3 board: tile values, the eight lines, win and
    draw detection, and the geometry of the strike line drawn over a win. */
module Rules {

  datatype Option<T> = None | Some(value: T)

  /** Tile values as the board stores them. */
  const Empty := -1
  const X := 1
  const O := 2

  /** Distance between the centres of two neighbouring tiles. */
  const TileOffset := 2

  /** A row or column index of the 3x3 grid. */
  type Coord = i: int | 0 <= i < 3

  /** The nine tile values in row-major order: row 0 is the top row,
      column 0 the left column. */
  type Grid = g: seq<int> | |g| == 9
    witness [Empty, Empty, Empty, Empty, Empty, Empty, Empty, Empty, Empty]

  const EmptyGrid: Grid := [Empty, Empty, Empty, Empty, Empty, Empty, Empty, Empty, Empty]

  predicate InGrid(r: int, c: int) {
    0 <= r < 3 && 0 <= c < 3
  }

  function Index(r: Coord, c: Coord): (i: nat) {
    3 * r + c
  }

  predicate IsMark(v: int) {
    v == X || v == O
  }

  /** Every tile holds Empty, X or O. */
  predicate WellFormed(g: Grid) {
    forall i | 0 <= i < 9 :: g[i] == Empty || IsMark(g[i])
  }

  /** The board is full when no tile is Empty. */
  predicate IsFull(g: Grid) {
    forall i | 0 <= i < 9 :: g[i] != Empty
  }

  /** Fullness tile by tile. */
  lemma FullByTiles(g: Grid)
    requires g[0] != Empty && g[1] != Empty && g[2] != Empty
    requires g[3] != Empty && g[4] != Empty && g[5] != Empty
    requires g[6] != Empty && g[7] != Empty && g[8] != Empty
    ensures IsFull(g)
  {
    forall i | 0 <= i < 9
      ensures g[i] != Empty
    {
      assert i == 0 || i == 1 || i == 2 || i == 3 || i == 4 || i == 5 || i == 6 || i == 7 || i == 8;
    }
  }

  // ---------------------------------------------------------------- lines

  datatype Line = Column(col: Coord) | Row(row: Coord) | LeftDiagonal | RightDiagonal

  datatype Pos = Pos(row: Coord, col: Coord)

  /** The three tiles of a line, in the order the board collects them. */
  function LineTiles(l: Line): (tiles: seq<Pos>) {
    match l
    case Column(i) => [Pos(0, i), Pos(1, i), Pos(2, i)]
    case Row(i) => [Pos(i, 0), Pos(i, 1), Pos(i, 2)]
    case LeftDiagonal => [Pos(0, 0), Pos(1, 1), Pos(2, 2)]
    case RightDiagonal => [Pos(0, 2), Pos(1, 1), Pos(2, 0)]
  }

  function At(g: Grid, p: Pos): (v: int) {
    g[Index(p.row, p.col)]
  }

  /** The values of a line's tiles, in LineTiles order. */
  function LineValues(g: Grid, l: Line): (values: seq<int>) {
    var t := LineTiles(l);
    [At(g, t[0]), At(g, t[1]), At(g, t[2])]
  }

  /** The board's test for a finished line: the first three values agree
      and the first is not Empty. */
  predicate AllTilesHaveSameValue(values: seq<int>)
    requires |values| >= 3
  {
    values[0] == values[1] && values[0] == values[2] && values[0] != Empty
  }

  predicate Complete(g: Grid, l: Line) {
    AllTilesHaveSameValue(LineValues(g, l))
  }

  /** On a well-formed grid a complete line is three X or three O, and
      conversely. */
  lemma CompleteMeansOneMark(g: Grid, l: Line)
    requires WellFormed(g)
    ensures Complete(g, l) <==>
      exists m :: IsMark(m) && forall k | 0 <= k < 3 :: At(g, LineTiles(l)[k]) == m
  {
    var t := LineTiles(l);
    if Complete(g, l) {
      var m := At(g, t[0]);
      assert m == g[Index(t[0].row, t[0].col)];
      assert IsMark(m);
      assert forall k | 0 <= k < 3 :: At(g, t[k]) == m;
    }
  }

  /** Where a line comes in the order the board tries them: columns 0..2,
      rows 0..2, the main diagonal, then the anti-diagonal. */
  function Rank(l: Line): (rank: nat) {
    match l
    case Column(i) => i
    case Row(i) => 3 + i
    case LeftDiagonal => 6
    case RightDiagonal => 7
  }

  /** Different lines come at different places in the order. */
  lemma RankIsInjective(l: Line, l': Line)
    requires Rank(l) == Rank(l')
    ensures l == l'
  {
  }

  /** The leftmost complete column, if any. */
  function FirstCompleteColumn(g: Grid): (found: Option<Line>) {
    if Complete(g, Column(0)) then Some(Column(0))
    else if Complete(g, Column(1)) then Some(Column(1))
    else if Complete(g, Column(2)) then Some(Column(2))
    else None
  }

  /** The topmost complete row, if any. */
  function FirstCompleteRow(g: Grid): (found: Option<Line>) {
    if Complete(g, Row(0)) then Some(Row(0))
    else if Complete(g, Row(1)) then Some(Row(1))
    else if Complete(g, Row(2)) then Some(Row(2))
    else None
  }

  /** The line the board reports as the winning one: the columns are tried
      first, then the rows, then the main diagonal and the anti-diagonal. */
  function FirstCompleteLine(g: Grid): (found: Option<Line>) {
    if FirstCompleteColumn(g).Some? then FirstCompleteColumn(g)
    else if FirstCompleteRow(g).Some? then FirstCompleteRow(g)
    else if Complete(g, LeftDiagonal) then Some(LeftDiagonal)
    else if Complete(g, RightDiagonal) then Some(RightDiagonal)
    else None
  }

  /** The reported line is complete and every line tried before it is not;
      no line is reported exactly when none is complete. */
  lemma FirstCompleteLineIsFirst(g: Grid)
    ensures FirstCompleteLine(g).Some? ==>
      var l := FirstCompleteLine(g).value;
      Complete(g, l) && forall l': Line | Rank(l') < Rank(l) :: !Complete(g, l')
    ensures FirstCompleteLine(g).None? ==> forall l: Line :: !Complete(g, l)
  {
    var r := FirstCompleteLine(g);
    forall l': Line | r.None? || Rank(l') < Rank(r.value)
      ensures !Complete(g, l')
    {
      match l'
      case Column(i) =>
        assert i == 0 || i == 1 || i == 2;
      case Row(i) =>
        assert i == 0 || i == 1 || i == 2;
      case LeftDiagonal =>
      case RightDiagonal =>
    }
  }

  /** No line is reported exactly when no line at all is complete. */
  lemma NoWinnerMeansNoCompleteLine(g: Grid, l: Line)
    requires FirstCompleteLine(g).None?
    ensures !Complete(g, l)
  {
    FirstCompleteLineIsFirst(g);
  }

  /** A reported line is complete. */
  lemma ReportedLineIsComplete(g: Grid)
    requires FirstCompleteLine(g).Some?
    ensures Complete(g, FirstCompleteLine(g).value)
  {
    FirstCompleteLineIsFirst(g);
  }

  /** Conversely, a complete line with no complete line before it is the
      one reported. */
  lemma FirstCompleteLineIs(g: Grid, l: Line)
    requires Complete(g, l) && forall l': Line | Rank(l') < Rank(l) :: !Complete(g, l')
    ensures FirstCompleteLine(g) == Some(l)
  {
    FirstCompleteLineIsFirst(g);
    var r := FirstCompleteLine(g);
    assert r.Some? && Rank(r.value) == Rank(l);
    RankIsInjective(l, r.value);
  }

  // ------------------------------------------------------------- counting

  /** How many tiles hold the value m. */
  function Count(s: seq<int>, m: int): (n: nat) {
    if s == [] then 0 else (if s[0] == m then 1 else 0) + Count(s[1..], m)
  }

  lemma {:induction false} CountUpdate(s: seq<int>, i: nat, v: int, m: int)
    requires i < |s|
    ensures Count(s[i := v], m) ==
      Count(s, m) - (if s[i] == m then 1 else 0) + (if v == m then 1 else 0)
  {
    if i > 0 {
      assert s[i := v][1..] == s[1..][i - 1 := v];
      CountUpdate(s[1..], i - 1, v, m);
    } else {
      assert s[i := v][1..] == s[1..];
    }
  }

  /** A value that no tile holds is counted zero times. */
  lemma {:induction false} CountAbsent(s: seq<int>, m: int)
    requires forall i | 0 <= i < |s| :: s[i] != m
    ensures Count(s, m) == 0
  {
    if s != [] {
      assert forall i | 0 <= i < |s[1..]| :: s[1..][i] == s[i + 1];
      CountAbsent(s[1..], m);
    }
  }

  // ------------------------------------------------------------- geometry

  datatype Point = Point(x: int, y: int)

  /** A strike line: its centre and its rotation about the z axis, in
      degrees. Unrotated, the line runs vertically. */
  datatype Strike = Strike(position: Point, rotation: int)

  /** Where the tile at (r, c) is placed: the grid is centred on the origin,
      with row 0 at the top and column 0 at the left. */
  function Centre(p: Pos): (centre: Point) {
    Point((p.col - 1) * TileOffset, (1 - p.row) * TileOffset)
  }

  /** The strike line the board sets up for a winning line. */
  function StrikeFor(l: Line): (s: Strike) {
    match l
    case Column(i) => Strike(Point(i * 2 - 2, 0), 0)
    case Row(i) => Strike(Point(0, i * -2 + 2), 90)
    case LeftDiagonal => Strike(Point(0, 0), 45)
    case RightDiagonal => Strike(Point(0, 0), 135)
  }

  /** A vector along a vertical line turned counter-clockwise by the given
      angle, scaled to whole numbers. */
  function Direction(rotation: int): (d: Point)
    requires rotation == 0 || rotation == 45 || rotation == 90 || rotation == 135
  {
    if rotation == 0 then Point(0, 1)
    else if rotation == 45 then Point(-1, 1)
    else if rotation == 90 then Point(-1, 0)
    else Point(-1, -1)
  }

  /** p lies on the infinite line through s. */
  predicate OnStrike(s: Strike, p: Point)
    requires s.rotation == 0 || s.rotation == 45 || s.rotation == 90 || s.rotation == 135
  {
    var d := Direction(s.rotation);
    (p.x - s.position.x) * d.y == (p.y - s.position.y) * d.x
  }

  /** The strike line of a winning line is centred on the line's middle tile
      and passes through the centres of all three of its tiles. */
  lemma StrikeCrossesLine(l: Line)
    ensures var s := StrikeFor(l);
      (s.rotation == 0 || s.rotation == 45 || s.rotation == 90 || s.rotation == 135) &&
      s.position == Centre(LineTiles(l)[1]) &&
      forall k | 0 <= k < 3 :: OnStrike(s, Centre(LineTiles(l)[k]))
  {
  }
}
