/**
 * Turn order and the end of the game: who moves after a placement
 * (`nextPlayer`), when nobody can move, and the final result (`showResult`).
 */
module Turn {
  import opened Board
  import opened Rules
  import opened Moves

  /** The player `nextPlayer` switches to first: COM after YOU, YOU otherwise. */
  function Switched(before: Option<Player>): Player {
    if before == Some(You) then Com else You
  }

  /** Neither the switched-to player nor the player before can place a disk. */
  ghost predicate Ends(g: Grid, before: Option<Player>)
    requires WellFormed(g)
  {
    !HasMove(g, Switched(before)) && !(before.Some? && HasMove(g, before.value))
  }

  /**
   * The player left in `self.player` once `nextPlayer` returns: the other side if
   * it can move, else the same side again (a skip) if it can move, else YOU,
   * because the game-over path resets the player to YOU.
   */
  ghost function Successor(g: Grid, before: Option<Player>): Player
    requires WellFormed(g)
  {
    if HasMove(g, Switched(before)) then Switched(before)
    else if before.Some? && HasMove(g, before.value) then before.value
    else You
  }

  /**
   * How `nextPlayer` decides from the lists it computes: `first` for the side it
   * switches to and, when that list is empty, `second` for the side before.
   */
  lemma SuccessorFromLists(g: Grid, before: Option<Player>, first: seq<Move>, second: seq<Move>)
    requires WellFormed(g)
    requires first == LegalMoves(g, Switched(before))
    requires first == [] ==> second == if before.Some? then LegalMoves(g, before.value) else []
    ensures Ends(g, before) <==> first == [] && second == []
    ensures Successor(g, before) ==
      if first != [] then Switched(before) else if second != [] then before.value else You
  {
  }

  /** After a player p has moved, the game is over exactly when no player has a legal cell. */
  lemma EndsIffNoLegalCell(g: Grid, p: Player)
    requires WellFormed(g)
    ensures Ends(g, Some(p)) <==> forall q, x, y :: !Legal(g, q, x, y)
  {
    HasMoveIff(g, p);
    HasMoveIff(g, Other(p));
    assert Switched(Some(p)) == Other(p);
    if !Ends(g, Some(p)) {
      assert HasMove(g, Other(p)) || HasMove(g, p);
    } else {
      forall q, x, y ensures !Legal(g, q, x, y) {
        assert q == p || q == Other(p);
      }
    }
  }

  /** While the game goes on, the player whose turn it is has a legal cell. */
  lemma SuccessorCanPlay(g: Grid, before: Option<Player>)
    requires WellFormed(g) && !Ends(g, before)
    ensures exists x, y :: Legal(g, Successor(g, before), x, y)
  {
    HasMoveIff(g, Successor(g, before));
  }

  /** The turn passes to the other side whenever that side has a legal cell. */
  lemma SwitchWhenPossible(g: Grid, before: Option<Player>, x: int, y: int)
    requires WellFormed(g) && Legal(g, Switched(before), x, y)
    ensures Successor(g, before) == Switched(before)
  {
    LegalMovesMembers(g, Switched(before));
    assert (x, y) in LegalMoves(g, Switched(before));
  }

  /** A player moves twice in a row only when the opponent has no legal cell. */
  lemma SkipMeansStuck(g: Grid, p: Player)
    requires WellFormed(g) && !Ends(g, Some(p)) && Successor(g, Some(p)) == p
    ensures forall x, y :: !Legal(g, Other(p), x, y)
  {
    HasMoveIff(g, Other(p));
    assert Switched(Some(p)) == Other(p);
  }

  /** When the board is full nobody can move, so the game is over. */
  lemma FullBoardEnds(g: Grid, before: Option<Player>)
    requires WellFormed(g) && CountGrid(g, Empty) == 0
    ensures Ends(g, before)
    ensures Successor(g, before) == You
  {
    forall q ensures !HasMove(g, q) {
      NoLegalOnFullBoard(g, q);
      HasMoveIff(g, q);
    }
  }

  lemma NoLegalOnFullBoard(g: Grid, q: Player)
    requires WellFormed(g) && CountGrid(g, Empty) == 0
    ensures forall x, y :: !Legal(g, q, x, y)
  {
    CountZeroIff(g, Empty);
  }

  datatype Outcome = YouWin | ComWin | Draw

  /** The result dialog: YOU's disks (black), COM's disks (white), the verdict. */
  datatype Report = Report(you: nat, com: nat, outcome: Outcome)

  /** The verdict of `showResult`: more black disks wins for YOU, more white for COM. */
  function Judge(you: nat, com: nat): (o: Outcome)
    ensures o == YouWin <==> you > com
    ensures o == ComWin <==> you < com
    ensures o == Draw <==> you == com
  {
    if you > com then YouWin else if you < com then ComWin else Draw
  }

  /** `updateScore`'s two counts: black disks for YOU, white disks for COM. */
  function Score(g: Grid): (nat, nat) {
    (CountGrid(g, Stone(ColorOf(You))), CountGrid(g, Stone(ColorOf(Com))))
  }

  function ResultOf(g: Grid): Report {
    Report(Score(g).0, Score(g).1, Judge(Score(g).0, Score(g).1))
  }

  /** The opening position: YOU's four moves, and two disks each. */
  lemma OpeningPosition(g: Grid)
    requires IsOpening(g)
    ensures LegalMoves(g, You) == OpeningCells
    ensures Score(g) == (2, 2)
  {
    OpeningIsInitial(g);
    OpeningMoves(g);
    InitialCounts();
  }

  /** The two scores and the empty cells account for all 64 cells. */
  lemma ScoreTotal(g: Grid)
    requires WellFormed(g)
    ensures Score(g).0 + Score(g).1 == N * N - CountGrid(g, Empty)
  {
    DisksByEmpty(g);
  }

  /** On a full board a draw is 32 to 32 and otherwise the larger side has more than half. */
  lemma FullBoardResult(g: Grid)
    requires WellFormed(g) && CountGrid(g, Empty) == 0
    ensures ResultOf(g).outcome == Draw <==> ResultOf(g).you == N * N / 2
    ensures ResultOf(g).outcome == YouWin <==> ResultOf(g).you > N * N / 2
  {
    ScoreTotal(g);
  }
}
