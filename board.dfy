/** The 8x8 grid of the game, its cells and colours, and the disk counts. */
module Board {

  datatype Option<T> = None | Some(value: T)

  /** The two sides (YOU = 1, COM = 2). */
  datatype Player = You | Com

  /** Disk colours: YOUR_COLOR is black, COM_COLOR is white. */
  datatype Color = Black | White

  /** A cell holds no disk (None) or a disk of one colour. */
  datatype Cell = Empty | Stone(color: Color)

  /** NUM_SQUARE: cells per row and per column. */
  const N: int := 8

  function Other(p: Player): Player {
    if p == You then Com else You
  }

  /** The colour dictionary `self.color`. */
  function ColorOf(p: Player): Color {
    if p == You then Black else White
  }

  function Opposite(c: Color): (r: Color)
    ensures r != c
  {
    if c == Black then White else Black
  }

  lemma OppositeOfColor(p: Player)
    ensures Opposite(ColorOf(p)) == ColorOf(Other(p))
    ensures ColorOf(p) != ColorOf(Other(p))
  {
  }

  /** The board as a value, indexed `g[y][x]` like the list of rows it models. */
  type Grid = seq<seq<Cell>>

  predicate WellFormed(g: Grid) {
    |g| == N && forall y :: 0 <= y < N ==> |g[y]| == N
  }

  predicate InBounds(x: int, y: int) {
    0 <= x < N && 0 <= y < N
  }

  /** `board[y][x] = v`. */
  function Write(g: Grid, x: int, y: int, v: Cell): (r: Grid)
    requires WellFormed(g) && InBounds(x, y)
    ensures WellFormed(r)
    ensures forall Y, X :: InBounds(X, Y) ==> r[Y][X] == if X == x && Y == y then v else g[Y][X]
  {
    g[y := g[y][x := v]]
  }

  /** `[[None] * NUM_SQUARE for _ in range(NUM_SQUARE)]`. */
  function EmptyGrid(): (g: Grid)
    ensures WellFormed(g)
    ensures forall Y, X :: InBounds(X, Y) ==> g[Y][X] == Empty
  {
    seq(N, _ => seq(N, _ => Empty))
  }

  /** The four disks of the opening, written in the order of `placeInitialStones`. */
  function InitialStones(g: Grid): (r: Grid)
    requires WellFormed(g)
    ensures WellFormed(r)
  {
    var g1 := Write(g, 3, 3, Stone(ColorOf(Com)));
    var g2 := Write(g1, 3, 4, Stone(ColorOf(You)));
    var g3 := Write(g2, 4, 3, Stone(ColorOf(You)));
    Write(g3, 4, 4, Stone(ColorOf(Com)))
  }

  function InitialGrid(): (g: Grid)
    ensures WellFormed(g)
  {
    InitialStones(EmptyGrid())
  }

  /** The cell (X, Y) of the opening: COM's disks on (3,3) and (4,4), YOU's on (3,4) and (4,3). */
  function OpeningCell(X: int, Y: int): Cell {
    if (X == 3 && Y == 3) || (X == 4 && Y == 4) then Stone(White)
    else if (X == 3 && Y == 4) || (X == 4 && Y == 3) then Stone(Black)
    else Empty
  }

  /** g is the opening position, cell by cell. */
  predicate IsOpening(g: Grid) {
    WellFormed(g) && forall Y, X :: 0 <= Y < N && 0 <= X < N ==> g[Y][X] == OpeningCell(X, Y)
  }

  /** `placeInitialStones` on an empty board gives the opening position. */
  lemma OpeningFromEmpty(g: Grid)
    requires WellFormed(g) && forall Y, X :: InBounds(X, Y) ==> g[Y][X] == Empty
    ensures IsOpening(InitialStones(g))
  {
  }

  /** The opening position is one board: `InitialGrid()`. */
  lemma OpeningIsInitial(g: Grid)
    requires IsOpening(g)
    ensures g == InitialGrid()
  {
    InitialLayout();
    forall Y | 0 <= Y < N ensures g[Y] == InitialGrid()[Y] {
      assert forall X :: 0 <= X < N ==> g[Y][X] == InitialGrid()[Y][X];
    }
  }

  /** The opening position: COM's disks on (3,3) and (4,4), YOU's on (3,4) and (4,3), nothing else. */
  lemma InitialLayout()
    ensures forall Y, X :: InBounds(X, Y) ==>
      InitialGrid()[Y][X] ==
        if (X == 3 && Y == 3) || (X == 4 && Y == 4) then Stone(White)
        else if (X == 3 && Y == 4) || (X == 4 && Y == 3) then Stone(Black)
        else Empty
  {
  }

  /** `row.count(v)`. */
  function CountIn(row: seq<Cell>, v: Cell): nat {
    if row == [] then 0
    else CountIn(row[..|row| - 1], v) + (if row[|row| - 1] == v then 1 else 0)
  }

  /** `sum(row.count(v) for row in rows)`. */
  function CountGrid(rows: Grid, v: Cell): nat {
    if rows == [] then 0
    else CountGrid(rows[..|rows| - 1], v) + CountIn(rows[|rows| - 1], v)
  }

  /** The total number of disks on the board. */
  function Disks(g: Grid): nat {
    CountGrid(g, Stone(Black)) + CountGrid(g, Stone(White))
  }

  lemma {:induction false} CountInUpdate(row: seq<Cell>, x: int, v: Cell, w: Cell)
    requires 0 <= x < |row|
    ensures CountIn(row[x := v], w) + (if row[x] == w then 1 else 0)
         == CountIn(row, w) + (if v == w then 1 else 0)
  {
    var n := |row|;
    if x < n - 1 {
      assert row[x := v][..n - 1] == row[..n - 1][x := v];
      CountInUpdate(row[..n - 1], x, v, w);
    } else {
      assert row[x := v][..n - 1] == row[..n - 1];
    }
  }

  lemma {:induction false} CountGridUpdate(rows: Grid, y: int, r: seq<Cell>, w: Cell)
    requires 0 <= y < |rows|
    ensures CountGrid(rows[y := r], w) + CountIn(rows[y], w) == CountGrid(rows, w) + CountIn(r, w)
  {
    var n := |rows|;
    if y < n - 1 {
      assert rows[y := r][..n - 1] == rows[..n - 1][y := r];
      CountGridUpdate(rows[..n - 1], y, r, w);
    } else {
      assert rows[y := r][..n - 1] == rows[..n - 1];
    }
  }

  /** Writing one cell changes the count of a cell value only by what left and what arrived. */
  lemma CountWrite(g: Grid, x: int, y: int, v: Cell, w: Cell)
    requires WellFormed(g) && InBounds(x, y)
    ensures CountGrid(Write(g, x, y, v), w) + (if g[y][x] == w then 1 else 0)
         == CountGrid(g, w) + (if v == w then 1 else 0)
  {
    CountInUpdate(g[y], x, v, w);
    CountGridUpdate(g, y, g[y][x := v], w);
  }

  /** Every cell is empty, black or white. */
  lemma {:induction false} RowPartition(row: seq<Cell>)
    ensures CountIn(row, Empty) + CountIn(row, Stone(Black)) + CountIn(row, Stone(White)) == |row|
  {
    if row != [] {
      RowPartition(row[..|row| - 1]);
      match row[|row| - 1]
      case Empty =>
      case Stone(c) => assert c == Black || c == White;
    }
  }

  lemma {:induction false} GridPartition(rows: Grid)
    requires forall y :: 0 <= y < |rows| ==> |rows[y]| == N
    ensures CountGrid(rows, Empty) + Disks(rows) == N * |rows|
  {
    if rows != [] {
      GridPartition(rows[..|rows| - 1]);
      RowPartition(rows[|rows| - 1]);
    }
  }

  /** On a well-formed grid the disks are the 64 cells less the empty ones. */
  lemma DisksByEmpty(g: Grid)
    requires WellFormed(g)
    ensures Disks(g) == N * N - CountGrid(g, Empty)
  {
    GridPartition(g);
  }

  lemma {:induction false} SameEmptyRow(a: seq<Cell>, b: seq<Cell>)
    requires |a| == |b|
    requires forall x :: 0 <= x < |a| ==> (a[x] == Empty <==> b[x] == Empty)
    ensures CountIn(a, Empty) == CountIn(b, Empty)
  {
    if a != [] {
      SameEmptyRow(a[..|a| - 1], b[..|b| - 1]);
    }
  }

  /** Two grids with their empty cells in the same places hold the same number of disks. */
  lemma {:induction false} SameEmptyCells(g: Grid, h: Grid)
    requires |g| == |h| && forall y :: 0 <= y < |g| ==> |g[y]| == N && |h[y]| == N
    requires forall y, x :: 0 <= y < |g| && 0 <= x < N ==> (g[y][x] == Empty <==> h[y][x] == Empty)
    ensures CountGrid(g, Empty) == CountGrid(h, Empty)
  {
    if g != [] {
      var n := |g|;
      SameEmptyCells(g[..n - 1], h[..n - 1]);
      SameEmptyRow(g[n - 1], h[n - 1]);
    }
  }

  lemma {:induction false} RowAbsent(row: seq<Cell>, v: Cell)
    requires forall x :: 0 <= x < |row| ==> row[x] != v
    ensures CountIn(row, v) == 0
  {
    if row != [] {
      RowAbsent(row[..|row| - 1], v);
    }
  }

  lemma {:induction false} GridAbsent(rows: Grid, v: Cell)
    requires forall y, x :: 0 <= y < |rows| && 0 <= x < |rows[y]| ==> rows[y][x] != v
    ensures CountGrid(rows, v) == 0
  {
    if rows != [] {
      GridAbsent(rows[..|rows| - 1], v);
      RowAbsent(rows[|rows| - 1], v);
    }
  }

  /** A cell value is counted zero times exactly when no cell holds it. */
  lemma CountZeroIff(g: Grid, v: Cell)
    requires WellFormed(g)
    ensures CountGrid(g, v) == 0 <==> forall Y, X :: InBounds(X, Y) ==> g[Y][X] != v
  {
    if forall Y, X :: InBounds(X, Y) ==> g[Y][X] != v {
      GridAbsent(g, v);
    } else {
      var Y, X :| InBounds(X, Y) && g[Y][X] == v;
      var other := if v == Empty then Stone(Black) else Empty;
      CountWrite(g, X, Y, other, v);
    }
  }

  /** The opening position holds two disks of each colour and 60 empty cells. */
  lemma InitialCounts()
    ensures CountGrid(InitialGrid(), Stone(Black)) == 2
    ensures CountGrid(InitialGrid(), Stone(White)) == 2
    ensures CountGrid(InitialGrid(), Empty) == N * N - 4
  {
    var g0 := EmptyGrid();
    var g1 := Write(g0, 3, 3, Stone(ColorOf(Com)));
    var g2 := Write(g1, 3, 4, Stone(ColorOf(You)));
    var g3 := Write(g2, 4, 3, Stone(ColorOf(You)));
    var g4 := Write(g3, 4, 4, Stone(ColorOf(Com)));
    assert g4 == InitialGrid();
    GridAbsent(g0, Stone(Black));
    GridAbsent(g0, Stone(White));
    DisksByEmpty(g0);
    forall w | w == Stone(Black) || w == Stone(White) || w == Empty
      ensures CountGrid(g4, w) == CountGrid(g0, w) + (if w == Empty then -4 else 2)
    {
      CountWrite(g0, 3, 3, Stone(White), w);
      CountWrite(g1, 3, 4, Stone(Black), w);
      CountWrite(g2, 4, 3, Stone(Black), w);
      CountWrite(g3, 4, 4, Stone(White), w);
    }
  }
}
