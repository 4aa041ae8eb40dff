# Othello game state, modelled in Dafny

This project models the game logic of the `Othello` class in `main.py`, a Reversi
game for one human player (YOU, black, moving first) against a greedy computer
player (COM, white) on an 8x8 board. The model covers:

- the board the object mutates cell by cell (`self.board`, indexed `board[y][x]`);
- the player field (`self.player`: YOU, COM or None);
- the handlers that drive a game: `initOthello`, `click`, `place`, `reverse`,
  `nextPlayer`, `com`, `findBestMove` and `evaluateMove`;
- the legality scan `checkPlacable`, the move list `getPlacable`, and the counting
  in `updateScore` and `showResult`.

Layout:

- `board.dfy` (module `Board`): cells, colours, the grid as a value, and disk counts.
- `rules.dfy` (module `Rules`): the eight-way ray scan and the flips.
  - The declarative reading is `Brackets`/`Legal`.
  - The source's step loop is `ScanFrom`; the two are proved equal.
  - The effect of `reverse` is `ReverseGrid`, a fold over the nine offsets in
    scan order, and is proved equal to "flip exactly the bracketed runs".
- `moves.dfy` (module `Moves`): the row-major list `getPlacable` builds.
- `turn.dfy` (module `Turn`): who moves next, the end of the game, and the result.
- `opponent.dfy` (module `Opponent`): COM's evaluation and its choice of cell.
- `othello.dfy` (module `Game`): the class `Othello` itself.
  - The board is an `array2<Cell>` field.
  - The player is an `Option<Player>` field.
  - Every method is proved against the functions of the other modules through a
    ghost copy `cells` of the board.
  - Messages the handlers would show in dialogs and labels are returned as values
    (`Notice`, `Report`) instead.

Two behaviours of the source are modelled as written:

- `evaluateMove` writes the mover's disk BEFORE calling `reverse`. `reverse` returns
  at once on an occupied cell, so the flip term is always 1: an empty candidate
  scores 101 on a corner and 1 elsewhere (`Opponent.EvaluationValue`).
- At the end of the game `nextPlayer` sets the player to None, but `showResult` then
  sets it to YOU. The game therefore ends "YOU to move with no legal cell"
  (`Turn.Successor`). The branch `elif not self.player` of `place` can never run.
  Because the player is YOU both before and after, `place` also reports a skip of
  COM's turn when YOU's move ends the game (`Game.Othello.Place`).

`com` places a white disk, but `reverse` flips in the colour of `self.player`. The
model keeps both: `Game.Othello.ComMove` places `ColorOf(Com)` and flips for the
player to move. The two differ only when a scheduled `com` runs after the reset
button has made it YOU's turn again.

## Model

| member | source | states |
|---|---|---|
| Board.OppositeOfColor | main.py:177-180 | the `other` side's colour is the opposite of the mover's colour, and differs from it |
| Board.Write | main.py:151 | writing `board[y][x]` keeps the board 8x8, sets that one cell and leaves every other cell as it was |
| Board.EmptyGrid | main.py:81 | the fresh board is 8x8 with every cell empty |
| Board.OpeningFromEmpty | main.py:119-126 | the four writes of `placeInitialStones` on an empty board give the opening: COM on (3,3) and (4,4), YOU on (3,4) and (4,3), nothing else |
| Board.OpeningIsInitial | main.py:119-126 | a board that holds the opening cell by cell is the board `placeInitialStones` builds from an empty one |
| Board.InitialLayout | main.py:119-126 | the opening board holds white on (3,3) and (4,4), black on (3,4) and (4,3), and is empty elsewhere |
| Board.CountWrite | main.py:360-361 | writing one cell changes the count of a cell value only by the value that left and the value that arrived |
| Board.DisksByEmpty | main.py:360-361 | the black and white disks together are the 64 cells less the empty ones |
| Board.CountZeroIff | main.py:360-361 | a cell value is counted zero times exactly when no cell holds it |
| Board.InitialCounts | main.py:119-126 | the opening holds two black disks, two white disks and 60 empty cells |
| Rules.ScanFromCorrect | main.py:199-210 | the step loop of `checkPlacable` ends at step k exactly when steps 1 .. k-1 hold opponent disks and step k holds a disk of the mover, all on the board |
| Rules.BracketEndCorrect | main.py:183-210 | the guards of one direction plus its step loop find step k exactly when k closes a bracketing run in that direction |
| Rules.LegalIffSomeEnd | main.py:170-213 | the target is legal exactly when it is empty and the scan of some offset (i, j) closes a run |
| Rules.LegalFromEnd | main.py:208-210 | an empty target with one closing direction is legal (the early `return True`) |
| Rules.NotLegalWithoutEnds | main.py:183-213 | when none of the nine scans closes a run the target is not legal (the final `return False`) |
| Rules.FlipDirAtEnd | main.py:318-321 | when a direction closes at step k, its flips are the flip loop over steps 1 .. k-1 |
| Rules.FlipStepsAt | main.py:319-321 | the flip loop run up to step n colours exactly the ray cells before step n and changes nothing else |
| Rules.FlipDirAt | main.py:294-329 | one offset of `reverse` colours exactly the cells strictly between the target and its closing disk |
| Rules.RaysDisjoint | main.py:294-329 | rays from one cell in two different directions share no cell, so the order of the offsets does not matter |
| Rules.BracketEndLocal | main.py:304-318 | the scan of one direction reads only the cells of its own ray |
| Rules.FoldDirsAt | main.py:294-329 | after the first d offsets, a cell is the mover's colour if one of those offsets, judged on the original board, flips it, and is unchanged otherwise |
| Rules.RunWasOpponent | main.py:304-321 | every flipped cell held an opponent disk |
| Rules.ReverseFlips | main.py:282-329 | on an empty target `reverse` turns exactly the cells of the bracketed runs to the mover's colour, those cells held opponent disks, and the target and every other cell are unchanged |
| Rules.LegalIffFlips | main.py:170-213 | a move is legal exactly when its target is empty and it would flip at least one disk |
| Rules.PlacementEffect | main.py:242-249 | a placement on an empty cell puts the disk on the target, flips the bracketed runs to the mover's colour, changes no other cell, and raises the disk count by exactly one |
| Moves.CollectedStep | main.py:161-166 | one iteration of the inner loop appends (x, y) exactly when the cell passes `checkPlacable` |
| Moves.CollectedEnds | main.py:159-166 | a row starts from the rows before it and, once complete, the list holds one more row |
| Moves.RowCellsHas | main.py:161-166 | a cell is listed in a row's part of the list exactly when it is in that row, left of the scan position, and passes the test |
| Moves.CellsBeforeHas | main.py:159-166 | a cell is listed among the first y rows exactly when it lies in them and passes the test |
| Moves.CellsBeforeOrdered | main.py:159-166 | the rows scanned so far are listed in row-major order without repeats |
| Moves.LegalMovesMembers | main.py:153-168 | `getPlacable` lists exactly the cells where a disk may be placed |
| Moves.LegalMoveAt | main.py:153-168 | one cell is listed exactly when it is legal |
| Moves.LegalMovesOrdered | main.py:159-166 | `getPlacable` lists each cell once, in row-major order (y outer, x inner) |
| Moves.HasMoveIff | main.py:343-345 | the list is non-empty exactly when the player has a legal cell |
| Moves.OrderedUnique | main.py:159-166 | two row-major lists of the same cells are the same list |
| Moves.OpeningLegal | main.py:170-213 | in the opening YOU may play exactly (3,2), (2,3), (5,4) and (4,5) |
| Moves.OpeningMoves | main.py:107-110 | in the opening `getPlacable` returns [(3,2), (2,3), (5,4), (4,5)] for YOU, in that order |
| Turn.SuccessorFromLists | main.py:331-356 | the player `nextPlayer` leaves is decided by its two lists: first the other side's, then, when that one is empty, the same side's |
| Turn.EndsIffNoLegalCell | main.py:343-356 | after a move, the game ends exactly when no player has a legal cell |
| Turn.SuccessorCanPlay | main.py:331-351 | while the game goes on, the player to move has a legal cell |
| Turn.SwitchWhenPossible | main.py:336-345 | the turn passes to the other side whenever that side has a legal cell |
| Turn.SkipMeansStuck | main.py:343-348 | a side moves twice in a row only when the other side has no legal cell |
| Turn.FullBoardEnds | main.py:331-356 | on a full board nobody can move, the game ends, and YOU is left to move |
| Turn.NoLegalOnFullBoard | main.py:174-175 | on a full board no cell is legal for either side |
| Turn.Judge | main.py:379-384 | YOU wins exactly on more black disks, COM exactly on more white disks, a draw exactly on equal counts |
| Turn.OpeningPosition | main.py:74-126 | in the opening YOU's moves are [(3,2), (2,3), (5,4), (4,5)] and the score is 2 to 2 |
| Turn.ScoreTotal | main.py:360-361 | the two scores and the empty cells account for all 64 cells |
| Turn.FullBoardResult | main.py:373-384 | on a full board the game is a draw exactly at 32 to 32, and YOU wins exactly with more than 32 |
| Opponent.EvaluationValue | main.py:435-457 | `evaluateMove` scores 100 for a corner plus 1 for a cell not already of the mover's colour, whatever a real placement would flip |
| Opponent.BestIndex | main.py:425-431 | the index kept by the strict `>` holds the maximum and every earlier index scores strictly less |
| Opponent.BestIndexExtend | main.py:429-431 | one more candidate becomes the best only when it scores strictly more than the best so far |
| Opponent.Scores | main.py:425-427 | the scores list `evaluateMove` for every candidate, in list order |
| Opponent.BestMovePrefersCorners | main.py:420-457 | on empty candidates `findBestMove` returns None only for an empty list; it returns the first corner of the list when there is one, and the first candidate otherwise |
| Opponent.CornerScores | main.py:438-440 | an empty candidate scores 101 on a corner and 1 elsewhere |
| Opponent.FirstCorner | main.py:425-431 | with corners at 101 and other cells at 1, the first maximum is the first corner of the list, if any |
| Opponent.LegalMovesAreEmptyCells | main.py:153-175 | every cell `getPlacable` lists is on the board and empty |
| Opponent.ComChoiceProperties | main.py:407-418 | COM passes only when it has no legal cell; otherwise it plays a legal cell: the first legal corner in row-major order when there is one, else the first legal cell |
| Opponent.FirstCornerOfList | main.py:425-431 | in a row-major list, a corner with no corner before it comes before every other corner |
| Game.CountStones | main.py:360-361 | the nested count over the array equals the count of that value on the board |
| Game.CopyBoard | main.py:444 | `[row[:] for row in self.board]` is a fresh array with the same cells |
| Game.Othello.constructor | main.py:22-39 | a new game object holds the opening with YOU to move |
| Game.Othello.InitOthello | main.py:74-117 | a fresh board with the opening disks, YOU to move, highlighted cells [(3,2), (2,3), (5,4), (4,5)], and a score of 2 to 2 |
| Game.Othello.NewBoard | main.py:81 | a fresh array of empty cells replaces the board |
| Game.Othello.PlaceInitialStones | main.py:119-126 | the four opening disks are written in order and nothing else changes |
| Game.Othello.DrawDisk | main.py:151 | the board records the disk at (x, y) and nothing else changes |
| Game.Othello.ScanDirection | main.py:187-210 | one offset of the scan returns the step of the closing disk, or none |
| Game.Othello.ScanRun | main.py:199-210 | the step loop returns the first on-board step holding the mover's colour, stopping at an empty cell |
| Game.Othello.CheckPlacable | main.py:170-213 | the result is true exactly when the cell is legal for the player to move |
| Game.Othello.GetPlacable | main.py:153-168 | None as player gives []; otherwise the result is the row-major list of legal cells |
| Game.Othello.PlacableInRow | main.py:161-166 | one row of the scan appends its legal cells in column order |
| Game.Othello.FlipDirection | main.py:297-329 | one offset of `reverse` flips the cells its scan brackets and nothing else |
| Game.Othello.FlipDisks | main.py:319-321 | the flip loop colours steps 1 .. s-1 of the ray |
| Game.Othello.Reverse | main.py:282-329 | the board becomes `ReverseGrid` of the old board: nothing on an occupied cell, else every bracketed run flipped |
| Game.Othello.UpdateScore | main.py:358-361 | the result is the count of black disks and the count of white disks |
| Game.Othello.ShowResult | main.py:373-389 | the report holds both counts and the verdict, and the player becomes YOU |
| Game.Othello.NextPlayer | main.py:331-356 | the player becomes the other side if it can move, else the same side if it can move, else (after the result is shown) YOU; a report is given exactly when neither side can move |
| Game.Othello.Place | main.py:242-280 | the board becomes the flips plus the new disk, and the disk count rises by one on an empty cell; the turn passes as `nextPlayer` decides; a skip is reported exactly when the player is unchanged; the next player's legal cells are returned, and whether COM moves next |
| Game.Othello.Click | main.py:227-240 | a placement happens exactly when it is YOU's turn and the cell is legal for YOU; it places a black disk; otherwise nothing changes |
| Game.Othello.ComMove | main.py:407-418 | nothing changes when the player to move has no legal cell; otherwise a white disk goes on the cell `ComChoice` names, and the turn passes |
| Game.Othello.FindBestMove | main.py:420-433 | the result is the first candidate with the highest score, or None for an empty list; the board contents and the player are as before |
| Game.Othello.EvaluateMove | main.py:435-457 | the result is the corner bonus plus the disk-count difference of the trial; afterwards the board holds the same cells (in a new array) and the player is unchanged |

## Left out

- The tkinter interface is not modelled:
  - widget creation;
  - the drawing of squares and disks on the canvas;
  - `showPlacable`;
  - the label text of `updateScore` and `updateTurnLabel`;
  - the dialog texts;
  - `showHelp`.
  The values a dialog or label would show are returned instead (`Notice`, `Report`).
- The one-second timer that schedules `com` is not modelled. `Place` returns
  `comNext` and the caller may call `ComMove`.
- The conversion from pixels to cells in `click` is not modelled. `Click` takes
  cell coordinates on the board. A click on the one-pixel border row or column
  (index 8) would raise an IndexError in the source; that case is excluded by
  `Click`'s precondition.
- `Game.Othello.FindBestMove`: the `-float('inf')` starting score is modelled as
  "no score yet" (`None`). Every score beats it, as in the source.
- `Game.Othello.constructor`: `__init__` first sets the board to None. An array
  field cannot be None, so the model starts from an empty board and then runs
  `InitOthello`.
- The branch `elif not self.player` of `place` is not modelled. `nextPlayer` never
  leaves the player None, so that branch cannot run.
- The tail of `place` tests `if self.player:`. The player is always YOU or COM at
  that point, so the model always takes that branch.
- The script lines that create the window and run the event loop are not modelled.
- `Game.Othello.ScanRun`, `Game.Othello.ScanDirection`, `Game.Othello.FlipDisks`,
  `Game.Othello.PlacableInRow` and `Game.Othello.NewBoard` are separate methods
  for loops the source writes inline. `checkPlacable` and `reverse` repeat the
  same direction guards and step loop, and the model uses one copy of them for
  both.
