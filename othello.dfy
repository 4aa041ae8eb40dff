/**
 * The `Othello` game object: the board it mutates cell by cell, the player to
 * move, and the handlers that drive a game (`initOthello`, `click`, `place`,
 * `nextPlayer`, `com`).  Drawing on the canvas and the labels are left out; the
 * messages a handler would show are returned as values instead.
 */
module Game {
  import opened Board
  import opened Rules
  import opened Moves
  import opened Turn
  import opened Opponent

  /** The array b holds the 8x8 grid g, `b[y, x]` being `board[y][x]`. */
  ghost predicate Holds(b: array2<Cell>, g: Grid)
    reads b
  {
    b.Length0 == N && b.Length1 == N && WellFormed(g) &&
    forall y, x :: 0 <= y < N && 0 <= x < N ==> b[y, x] == g[y][x]
  }

  /** `x + i * s` is the ray step for a unit offset i. */
  lemma StepIsProduct(x: int, i: int, s: int)
    requires -1 <= i <= 1
    ensures x + i * s == Step(x, i, s)
  {
    if i == -1 {
      assert i * s == -s;
    } else if i == 1 {
      assert i * s == s;
    }
  }

  /** `sum(row.count(v) for row in b)`. */
  method CountStones(b: array2<Cell>, ghost g: Grid, v: Cell) returns (n: nat)
    requires Holds(b, g)
    ensures n == CountGrid(g, v)
  {
    n := 0;
    for y := 0 to N
      invariant n == CountGrid(g[..y], v)
    {
      var k: nat := 0;
      for x := 0 to N
        invariant k == CountIn(g[y][..x], v)
      {
        if b[y, x] == v {
          k := k + 1;
        }
        assert g[y][..x + 1][..x] == g[y][..x];
      }
      assert g[y][..N] == g[y];
      assert g[..y + 1][..y] == g[..y];
      n := n + k;
    }
    assert g[..N] == g;
  }

  /** `[row[:] for row in b]`: a fresh array with the same cells. */
  method CopyBoard(b: array2<Cell>, ghost g: Grid) returns (copy: array2<Cell>)
    requires Holds(b, g)
    ensures fresh(copy) && Holds(copy, g)
  {
    copy := new Cell[N, N];
    for y := 0 to N
      invariant forall Y, X :: 0 <= Y < y && 0 <= X < N ==> copy[Y, X] == g[Y][X]
    {
      for x := 0 to N
        invariant forall Y, X :: 0 <= Y < y && 0 <= X < N ==> copy[Y, X] == g[Y][X]
        invariant forall X :: 0 <= X < x ==> copy[y, X] == g[y][X]
      {
        copy[y, x] := b[y, x];
      }
    }
  }

  /** What a call of `place` shows and decides, besides the new board. */
  datatype Notice = Notice(
    score: (nat, nat),            // the score label after the disk is drawn
    skipped: Option<Player>,      // the side whose turn the skip dialog reports
    over: Option<Report>,         // the result dialog, when the game ended
    placable: seq<Move>,          // the cells then highlighted for the next player
    comNext: bool)                // whether COM's move is scheduled next

  class Othello {
    var board: array2<Cell>
    var player: Option<Player>
    ghost var cells: Grid

    ghost predicate Valid()
      reads this, board
    {
      Holds(board, cells)
    }

    /** `__init__`: YOU to move, then `initOthello`. */
    constructor ()
      ensures Valid() && player == Some(You) && IsOpening(cells)
    {
      board := new Cell[N, N]((_, _) => Empty);
      cells := EmptyGrid();
      player := Some(You);
      new;
      var placable, score := InitOthello();
    }

    /** `initOthello`: a new empty board with the four opening disks, YOU to move. */
    method InitOthello() returns (placable: seq<Move>, score: (nat, nat))
      modifies this
      ensures Valid() && fresh(board)
      ensures player == Some(You) && IsOpening(cells)
      ensures placable == OpeningCells
      ensures score == (2, 2)
    {
      player := Some(You);
      NewBoard();
      ghost var g0 := cells;
      PlaceInitialStones();
      OpeningFromEmpty(g0);
      placable := GetPlacable();
      score := UpdateScore();
      OpeningPosition(cells);
    }

    /** The list of rows `[[None] * NUM_SQUARE for _ in range(NUM_SQUARE)]`. */
    method NewBoard()
      modifies this
      ensures Valid() && fresh(board) && player == old(player)
      ensures forall Y, X :: InBounds(X, Y) ==> cells[Y][X] == Empty
    {
      board := new Cell[N, N]((_, _) => Empty);
      cells := EmptyGrid();
    }

    /** `placeInitialStones`. */
    method PlaceInitialStones()
      requires Valid()
      modifies this, board
      ensures Valid() && board == old(board) && player == old(player)
      ensures cells == InitialStones(old(cells))
    {
      DrawDisk(3, 3, ColorOf(Com));
      DrawDisk(3, 4, ColorOf(You));
      DrawDisk(4, 3, ColorOf(You));
      DrawDisk(4, 4, ColorOf(Com));
    }

    /** `drawDisk`: only the record `self.board[y][x] = color` is modelled. */
    method DrawDisk(x: int, y: int, color: Color)
      requires Valid() && InBounds(x, y)
      modifies this, board
      ensures Valid() && board == old(board) && player == old(player)
      ensures cells == Write(old(cells), x, y, Stone(color))
    {
      board[y, x] := Stone(color);
      cells := Write(cells, x, y, Stone(color));
    }

    /**
     * One offset (i, j) of the direction loops in `checkPlacable` and `reverse`:
     * the step of the mover's disk that closes a run of opponent disks next to
     * (x, y), if the scan finds one.
     */
    method ScanDirection(x: int, y: int, i: int, j: int) returns (end: Option<int>)
      requires Valid() && InBounds(x, y) && player.Some? && IsUnit(i, j)
      ensures end == BracketEnd(cells, ColorOf(player.value), x, y, i, j)
    {
      var other := if player.value == You then Com else You;
      assert ColorOf(other) == Opposite(ColorOf(player.value));
      if i == 0 && j == 0 {
        return None;
      }
      var X, Y := x + i, y + j;
      StepIsProduct(x, i, 1);
      StepIsProduct(y, j, 1);
      if X < 0 || X >= N || Y < 0 || Y >= N {
        return None;
      }
      if board[Y, X] != Stone(ColorOf(other)) {
        return None;
      }
      end := ScanRun(x, y, i, j);
    }

    /**
     * The step loop `for s in range(2, NUM_SQUARE)` that `checkPlacable` and
     * `reverse` share: off-board steps are passed over, an empty cell stops the
     * scan, and a disk of the mover's colour ends it at step s.
     */
    method ScanRun(x: int, y: int, i: int, j: int) returns (end: Option<int>)
      requires Valid() && player.Some? && IsUnit(i, j)
      ensures end == ScanFrom(cells, ColorOf(player.value), x, y, i, j, 2)
    {
      var me := player.value;
      ghost var c := ColorOf(me);
      var s := 2;
      while s < N
        invariant 2 <= s <= N
        invariant ScanFrom(cells, c, x, y, i, j, s) == ScanFrom(cells, c, x, y, i, j, 2)
      {
        var X, Y := x + i * s, y + j * s;
        StepIsProduct(x, i, s);
        StepIsProduct(y, j, s);
        if X >= 0 && X < N && Y >= 0 && Y < N {
          if board[Y, X] == Empty {
            return None;
          }
          if board[Y, X] == Stone(ColorOf(me)) {
            return Some(s);
          }
        }
        s := s + 1;
      }
      return None;
    }

    /** `checkPlacable(x, y)`: the eight-direction scan for the player to move. */
    method CheckPlacable(x: int, y: int) returns (r: bool)
      requires Valid() && InBounds(x, y) && player.Some?
      ensures r == Legal(cells, player.value, x, y)
    {
      if board[y, x] != Empty {
        return false;
      }
      ghost var g, p := cells, player.value;
      ghost var f := CloseTest(g, ColorOf(p), x, y);
      var j := -1;
      while j < 2
        invariant -1 <= j <= 2
        invariant !AnyBelow(f, (j + 1) * 3)
      {
        var i := -1;
        while i < 2
          invariant -1 <= i <= 2
          invariant !AnyBelow(f, (j + 1) * 3 + (i + 1))
        {
          var end := ScanDirection(x, y, i, j);
          var closed := end.Some?;
          DirOfIndex(i, j);
          if closed {
            LegalFromEnd(g, p, x, y, i, j);
            return true;
          }
          i := i + 1;
        }
        j := j + 1;
      }
      NotLegalWithoutEnds(g, p, x, y);
      return false;
    }

    /** `getPlacable`: every cell where the player to move may place, row by row. */
    method GetPlacable() returns (placable: seq<Move>)
      requires Valid()
      ensures player.None? ==> placable == []
      ensures player.Some? ==> placable == LegalMoves(cells, player.value)
    {
      if player.None? {
        return [];
      }
      ghost var g, p := cells, player.value;
      ghost var f := LegalAt(g, p);
      placable := [];
      var y := 0;
      while y < N
        invariant 0 <= y <= N
        invariant Valid() && cells == g && player == Some(p)
        invariant placable == CellsBefore(f, y, |g|)
      {
        placable := PlacableInRow(y, placable);
        y := y + 1;
      }
    }

    /** The inner loop of `getPlacable`: row y, column by column, appended to acc. */
    method PlacableInRow(y: int, acc: seq<Move>) returns (placable: seq<Move>)
      requires Valid() && player.Some? && 0 <= y < N
      requires acc == CellsBefore(LegalAt(cells, player.value), y, |cells|)
      ensures placable == CellsBefore(LegalAt(cells, player.value), y + 1, |cells|)
    {
      ghost var g, p := cells, player.value;
      ghost var f := LegalAt(g, p);
      CollectedEnds(f, y, |g|);
      placable := acc;
      var x := 0;
      while x < N
        invariant 0 <= x <= N
        invariant Valid() && cells == g && player == Some(p)
        invariant placable == Collected(f, y, |g|, x)
      {
        var ok := CheckPlacable(x, y);
        TestIsLegal(g, p, x, y);
        CollectedStep(f, y, |g|, x);
        if ok {
          placable := placable + [(x, y)];
        }
        x := x + 1;
      }
    }

    /**
     * One offset (i, j) of the direction loop in `reverse`: when the scan closes
     * a run, its disks turn to the mover's colour.
     */
    method FlipDirection(x: int, y: int, i: int, j: int)
      requires Valid() && InBounds(x, y) && player.Some? && IsUnit(i, j)
      modifies this, board
      ensures Valid() && board == old(board) && player == old(player)
      ensures cells == FlipDir(old(cells), ColorOf(player.value), x, y, i, j)
    {
      ghost var g, c := cells, ColorOf(player.value);
      var end := ScanDirection(x, y, i, j);
      if end.Some? {
        FlipDirAtEnd(g, c, x, y, i, j, end.value);
        FlipDisks(x, y, i, j, end.value);
      }
    }

    /** The flip loop `for n in range(1, s)` of `reverse`. */
    method FlipDisks(x: int, y: int, i: int, j: int, s: int)
      requires Valid() && player.Some? && IsUnit(i, j) && 1 <= s
      requires forall m :: 1 <= m < s ==> RayIn(x, y, i, j, m)
      modifies this, board
      ensures Valid() && board == old(board) && player == old(player)
      ensures cells == FlipSteps(old(cells), ColorOf(player.value), x, y, i, j, s)
    {
      var me := player.value;
      ghost var g := cells;
      var n := 1;
      while n < s
        invariant 1 <= n <= s
        invariant Valid() && board == old(board) && player == old(player)
        invariant cells == FlipSteps(g, ColorOf(me), x, y, i, j, n)
      {
        var X, Y := x + i * n, y + j * n;
        StepIsProduct(x, i, n);
        StepIsProduct(y, j, n);
        assert RayIn(x, y, i, j, n);
        board[Y, X] := Stone(ColorOf(me));
        cells := Write(cells, X, Y, Stone(ColorOf(me)));
        n := n + 1;
      }
    }

    /** `reverse(x, y)`: flip every bracketed run, direction by direction. */
    method Reverse(x: int, y: int)
      requires Valid() && InBounds(x, y) && player.Some?
      modifies this, board
      ensures Valid() && board == old(board) && player == old(player)
      ensures cells == ReverseGrid(old(cells), ColorOf(player.value), x, y)
    {
      if board[y, x] != Empty {
        return;
      }
      ghost var c := ColorOf(player.value);
      ghost var g0 := cells;
      var j := -1;
      while j < 2
        invariant -1 <= j <= 2
        invariant Valid() && board == old(board) && player == old(player)
        invariant cells == FoldDirs(g0, c, x, y, (j + 1) * 3)
      {
        var i := -1;
        while i < 2
          invariant -1 <= i <= 2
          invariant Valid() && board == old(board) && player == old(player)
          invariant cells == FoldDirs(g0, c, x, y, (j + 1) * 3 + (i + 1))
        {
          DirOfIndex(i, j);
          FlipDirection(x, y, i, j);
          i := i + 1;
        }
        j := j + 1;
      }
    }

    /** `updateScore`: the disks of each side. */
    method UpdateScore() returns (score: (nat, nat))
      requires Valid()
      ensures score == Score(cells)
    {
      var you := CountStones(board, cells, Stone(ColorOf(You)));
      var com := CountStones(board, cells, Stone(ColorOf(Com)));
      score := (you, com);
    }

    /** `showResult`: the final counts and verdict; then YOU is set to move. */
    method ShowResult() returns (report: Report)
      requires Valid()
      modifies this
      ensures Valid() && board == old(board) && cells == old(cells)
      ensures player == Some(You)
      ensures report == ResultOf(cells)
    {
      var you := CountStones(board, cells, Stone(ColorOf(You)));
      var com := CountStones(board, cells, Stone(ColorOf(Com)));
      var outcome;
      if you > com {
        outcome := YouWin;
      } else if you < com {
        outcome := ComWin;
      } else {
        outcome := Draw;
      }
      report := Report(you, com, outcome);
      player := Some(You);
    }

    /** `nextPlayer`: switch sides, else keep the side (a skip), else end the game. */
    method NextPlayer() returns (over: Option<Report>)
      requires Valid()
      modifies this
      ensures Valid() && board == old(board) && cells == old(cells)
      ensures player == Some(Successor(cells, old(player)))
      ensures over.Some? <==> Ends(cells, old(player))
      ensures over.Some? ==> over.value == ResultOf(cells)
    {
      var before := player;
      ghost var g := cells;
      if player == Some(You) {
        player := Some(Com);
      } else {
        player := Some(You);
      }
      var placable := GetPlacable();
      ghost var first, second := placable, [];
      over := None;
      if |placable| == 0 {
        player := before;
        placable := GetPlacable();
        second := placable;
        if |placable| == 0 {
          player := None;
          var report := ShowResult();
          over := Some(report);
        }
      }
      SuccessorFromLists(g, before, first, second);
    }
  
    /**
     * `place(x, y, color)`: flip the runs of the player to move, put the disk,
     * pass the turn, and report what the handler shows.  The disk's colour is
     * the argument, while the flips use the colour of the player to move.
     */
    method Place(x: int, y: int, color: Color) returns (note: Notice)
      requires Valid() && InBounds(x, y) && player.Some?
      modifies this, board
      ensures Valid() && board == old(board)
      ensures cells == PlaceGrid(old(cells), old(player).value, x, y, color)
      ensures player == Some(Successor(cells, old(player)))
      ensures old(cells)[y][x] == Empty ==> Disks(cells) == Disks(old(cells)) + 1
      ensures note.score == Score(cells)
      ensures note.over.Some? <==> Ends(cells, old(player))
      ensures note.over.Some? ==> note.over.value == ResultOf(cells) && player == Some(You)
      ensures note.skipped.Some? <==> player == old(player)
      ensures note.skipped.Some? ==> note.skipped.value == Other(player.value)
      ensures note.placable == LegalMoves(cells, player.value)
      ensures note.comNext <==> player == Some(Com)
    {
      ghost var g := cells;
      Reverse(x, y);
      DrawDisk(x, y, color);
      if g[y][x] == Empty {
        PlacementEffect(g, player.value, x, y, color);
      }
      var score := UpdateScore();
      var before := player;
      var over := NextPlayer();
      var skipped := None;
      if before == player {
        if player != Some(You) {
          skipped := Some(You);
        } else {
          skipped := Some(Com);
        }
      }
      var placable := GetPlacable();
      note := Notice(score, skipped, over, placable, player == Some(Com));
    }

    /**
     * `click` on cell (x, y): only on YOU's turn and only on a legal cell does
     * YOU place a black disk; otherwise nothing happens.
     */
    method Click(x: int, y: int) returns (note: Option<Notice>)
      requires Valid() && InBounds(x, y)
      modifies this, board
      ensures Valid() && board == old(board)
      ensures note.None? <==> old(player) != Some(You) || !Legal(old(cells), You, x, y)
      ensures note.None? ==> cells == old(cells) && player == old(player)
      ensures note.Some? ==> cells == PlaceGrid(old(cells), You, x, y, ColorOf(You))
      ensures note.Some? ==> player == Some(Successor(cells, Some(You)))
    {
      if player != Some(You) {
        return None;
      }
      var ok := CheckPlacable(x, y);
      if !ok {
        return None;
      }
      var n := Place(x, y, ColorOf(You));
      note := Some(n);
    }

    /**
     * `com`: place a white disk on the best of the cells the player to move may
     * take; nothing happens when there is none.
     */
    method ComMove() returns (note: Option<Notice>)
      requires Valid() && player.Some?
      modifies this, board
      ensures Valid()
      ensures note.None? <==> ComChoice(old(cells), old(player).value).None?
      ensures note.None? ==> cells == old(cells) && player == old(player) && board == old(board)
      ensures note.Some? ==>
        var m := ComChoice(old(cells), old(player).value).value;
        InBounds(m.0, m.1) &&
        cells == PlaceGrid(old(cells), old(player).value, m.0, m.1, ColorOf(Com)) &&
        player == Some(Successor(cells, old(player)))
    {
      ghost var g, p := cells, player.value;
      var placable := GetPlacable();
      LegalMovesAreEmptyCells(g, p);
      var best := FindBestMove(placable);
      if best.None? {
        return None;
      }
      var x, y := best.value.0, best.value.1;
      var n := Place(x, y, ColorOf(Com));
      note := Some(n);
    }

    /** `findBestMove(placable)`: the first candidate with the strictly highest score. */
    method FindBestMove(placable: seq<Move>) returns (best: Option<Move>)
      requires Valid() && player.Some? && AllInBounds(placable)
      modifies this, board
      ensures Valid() && cells == old(cells) && player == old(player)
      ensures placable == [] ==> board == old(board)
      ensures placable != [] ==> fresh(board)
      ensures best == BestMove(old(cells), player.value, placable)
    {
      ghost var g, p := cells, player.value;
      ghost var scores := Scores(g, p, placable);
      var bestScore: Option<int> := None;
      best := None;
      ghost var k := 0;
      var m := 0;
      while m < |placable|
        invariant 0 <= m <= |placable|
        invariant Valid() && cells == g && player == Some(p)
        invariant m == 0 ==> board == old(board) && best == None && bestScore == None
        invariant m > 0 ==> fresh(board)
        invariant m > 0 ==> k == BestIndex(scores[..m]) && best == Some(placable[k]) && bestScore == Some(scores[k])
      {
        var x, y := placable[m].0, placable[m].1;
        var score := EvaluateMove(x, y);
        assert score == scores[m];
        BestIndexExtend(scores, m);
        if bestScore.None? || score > bestScore.value {
          bestScore := Some(score);
          best := Some((x, y));
          k := m;
        }
        m := m + 1;
      }
      assert scores[..|placable|] == scores;
    }

    /**
     * `evaluateMove(x, y)`: the corner bonus plus the change in the mover's disk
     * count after writing the disk and running `reverse` on a trial board; the
     * board is then replaced by the copy taken before the trial.
     */
    method EvaluateMove(x: int, y: int) returns (score: int)
      requires Valid() && InBounds(x, y) && player.Some?
      modifies this, board
      ensures Valid() && fresh(board) && cells == old(cells) && player == old(player)
      ensures score == Evaluation(old(cells), player.value, x, y)
    {
      score := 0;
      if (x == 0 && y == 0) || (x == 0 && y == N - 1) || (x == N - 1 && y == 0) || (x == N - 1 && y == N - 1) {
        score := score + 100;
      }
      ghost var g := cells;
      var originalBoard := CopyBoard(board, cells);
      var originalPlayer := player;
      var c := ColorOf(player.value);
      board[y, x] := Stone(c);
      cells := Write(cells, x, y, Stone(c));
      Reverse(x, y);
      var now := CountStones(board, cells, Stone(c));
      var before := CountStones(originalBoard, g, Stone(ColorOf(originalPlayer.value)));
      board := originalBoard;
      cells := g;
      player := originalPlayer;
      score := score + now - before;
    }
  }
}
