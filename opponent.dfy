/**
 * COM's move choice: `evaluateMove` scores one candidate cell and
 * `findBestMove` keeps the first candidate with the highest score.
 */
module Opponent {
  import opened Board
  import opened Rules
  import opened Moves

  /** The four corner cells, which `evaluateMove` rewards with 100 points. */
  predicate IsCorner(x: int, y: int) {
    (x == 0 && y == 0) || (x == 0 && y == N - 1) || (x == N - 1 && y == 0) || (x == N - 1 && y == N - 1)
  }

  /**
   * `evaluateMove(x, y)` as written: the disk is written onto the board BEFORE
   * `reverse(x, y)` runs, so `reverse` finds the cell occupied and flips
   * nothing; the count difference is then only the new disk itself.
   */
  function Evaluation(g: Grid, p: Player, x: int, y: int): int
    requires WellFormed(g) && InBounds(x, y)
  {
    var c := ColorOf(p);
    var trial := ReverseGrid(Write(g, x, y, Stone(c)), c, x, y);
    (if IsCorner(x, y) then 100 else 0) + CountGrid(trial, Stone(c)) - CountGrid(g, Stone(c))
  }

  /**
   * The score is the corner bonus plus one for a cell that does not already hold
   * the mover's colour, whatever disks a real placement would flip.
   */
  lemma EvaluationValue(g: Grid, p: Player, x: int, y: int)
    requires WellFormed(g) && InBounds(x, y)
    ensures Evaluation(g, p, x, y) ==
      (if IsCorner(x, y) then 100 else 0) + (if g[y][x] == Stone(ColorOf(p)) then 0 else 1)
  {
    var c := ColorOf(p);
    CountWrite(g, x, y, Stone(c), Stone(c));
    assert Write(g, x, y, Stone(c))[y][x] != Empty;
  }

  /** The index `findBestMove` keeps: the first position holding the maximum. */
  function BestIndex(s: seq<int>): (k: nat)
    requires s != []
    ensures k < |s|
    ensures forall m :: 0 <= m < |s| ==> s[m] <= s[k]
    ensures forall m :: 0 <= m < k ==> s[m] < s[k]
    decreases |s|
  {
    if |s| == 1 then 0
    else
      var k := BestIndex(s[..|s| - 1]);
      if s[|s| - 1] > s[k] then |s| - 1 else k
  }

  /** One more candidate: it becomes the best only if it scores strictly higher. */
  lemma BestIndexExtend(s: seq<int>, m: int)
    requires 0 <= m < |s|
    ensures m == 0 ==> BestIndex(s[..m + 1]) == 0
    ensures m > 0 ==>
      BestIndex(s[..m + 1]) == if s[m] > s[BestIndex(s[..m])] then m else BestIndex(s[..m])
  {
    assert s[..m + 1][..m] == s[..m];
  }

  predicate AllInBounds(ms: seq<Move>) {
    forall m :: 0 <= m < |ms| ==> InBounds(ms[m].0, ms[m].1)
  }

  /** The score of every candidate, in the order of the list. */
  function Scores(g: Grid, p: Player, ms: seq<Move>): (r: seq<int>)
    requires WellFormed(g) && AllInBounds(ms)
    ensures |r| == |ms|
    ensures forall m :: 0 <= m < |ms| ==> r[m] == Evaluation(g, p, ms[m].0, ms[m].1)
  {
    seq(|ms|, m requires 0 <= m < |ms| => Evaluation(g, p, ms[m].0, ms[m].1))
  }

  /** `findBestMove(placable)`: None for an empty list, else the first best-scoring cell. */
  function BestMove(g: Grid, p: Player, ms: seq<Move>): Option<Move>
    requires WellFormed(g) && AllInBounds(ms)
  {
    if ms == [] then None else Some(ms[BestIndex(Scores(g, p, ms))])
  }

  /**
   * On candidates that are all empty cells, COM takes the first corner in the
   * list, and the first candidate when there is no corner.
   */
  lemma BestMovePrefersCorners(g: Grid, p: Player, ms: seq<Move>)
    requires WellFormed(g) && AllInBounds(ms)
    requires forall m :: 0 <= m < |ms| ==> g[ms[m].1][ms[m].0] == Empty
    ensures BestMove(g, p, ms) == None <==> ms == []
    ensures ms != [] ==>
      var k := BestIndex(Scores(g, p, ms));
      (forall m :: 0 <= m < k ==> !IsCorner(ms[m].0, ms[m].1)) &&
      (IsCorner(ms[k].0, ms[k].1) <==> exists m :: 0 <= m < |ms| && IsCorner(ms[m].0, ms[m].1)) &&
      (!IsCorner(ms[k].0, ms[k].1) ==> k == 0)
  {
    if ms != [] {
      CornerScores(g, p, ms);
      FirstCorner(Scores(g, p, ms), ms);
    }
  }

  /** An empty cell scores 101 on a corner and 1 elsewhere. */
  lemma CornerScores(g: Grid, p: Player, ms: seq<Move>)
    requires WellFormed(g) && AllInBounds(ms)
    requires forall m :: 0 <= m < |ms| ==> g[ms[m].1][ms[m].0] == Empty
    ensures forall m :: 0 <= m < |ms| ==>
      Scores(g, p, ms)[m] == if IsCorner(ms[m].0, ms[m].1) then 101 else 1
  {
    forall m | 0 <= m < |ms| ensures Scores(g, p, ms)[m] == if IsCorner(ms[m].0, ms[m].1) then 101 else 1 {
      EvaluationValue(g, p, ms[m].0, ms[m].1);
    }
  }

  /** With corners at 101 and other cells at 1, the first maximum is the first corner, if any. */
  lemma FirstCorner(s: seq<int>, ms: seq<Move>)
    requires s != [] && |s| == |ms|
    requires forall m :: 0 <= m < |ms| ==> s[m] == if IsCorner(ms[m].0, ms[m].1) then 101 else 1
    ensures
      var k := BestIndex(s);
      (forall m :: 0 <= m < k ==> !IsCorner(ms[m].0, ms[m].1)) &&
      (IsCorner(ms[k].0, ms[k].1) <==> exists m :: 0 <= m < |ms| && IsCorner(ms[m].0, ms[m].1)) &&
      (!IsCorner(ms[k].0, ms[k].1) ==> k == 0)
  {
    var k := BestIndex(s);
    if exists m :: 0 <= m < |ms| && IsCorner(ms[m].0, ms[m].1) {
      var m :| 0 <= m < |ms| && IsCorner(ms[m].0, ms[m].1);
      assert s[m] <= s[k];
    }
    if k > 0 {
      assert s[0] < s[k];
    }
  }

  /** The cells `getPlacable` lists are on the board and empty. */
  lemma LegalMovesAreEmptyCells(g: Grid, p: Player)
    requires WellFormed(g)
    ensures AllInBounds(LegalMoves(g, p))
    ensures forall m :: 0 <= m < |LegalMoves(g, p)| ==>
      g[LegalMoves(g, p)[m].1][LegalMoves(g, p)[m].0] == Empty
  {
    LegalMovesMembers(g, p);
    forall m | 0 <= m < |LegalMoves(g, p)|
      ensures InBounds(LegalMoves(g, p)[m].0, LegalMoves(g, p)[m].1)
      ensures g[LegalMoves(g, p)[m].1][LegalMoves(g, p)[m].0] == Empty
    {
      var e := LegalMoves(g, p)[m];
      assert e in LegalMoves(g, p);
      assert Legal(g, p, e.0, e.1);
    }
  }

  /** The cell `com` places on: the best of the cells `getPlacable` lists for p. */
  ghost function ComChoice(g: Grid, p: Player): Option<Move>
    requires WellFormed(g)
  {
    LegalMovesAreEmptyCells(g, p);
    BestMove(g, p, LegalMoves(g, p))
  }

  /**
   * COM passes only when it has no legal cell; otherwise it plays a legal cell,
   * the first legal corner in row-major order when there is one, and the first
   * legal cell in row-major order when there is none.
   */
  lemma ComChoiceProperties(g: Grid, p: Player)
    requires WellFormed(g)
    ensures ComChoice(g, p).None? <==> !HasMove(g, p)
    ensures ComChoice(g, p).Some? ==> Legal(g, p, ComChoice(g, p).value.0, ComChoice(g, p).value.1)
    ensures ComChoice(g, p).Some? ==>
      (IsCorner(ComChoice(g, p).value.0, ComChoice(g, p).value.1) <==>
        exists x, y :: IsCorner(x, y) && Legal(g, p, x, y))
    ensures ComChoice(g, p).Some? && IsCorner(ComChoice(g, p).value.0, ComChoice(g, p).value.1) ==>
      forall x, y :: IsCorner(x, y) && Legal(g, p, x, y) ==>
        (x, y) == ComChoice(g, p).value || ScannedBefore(ComChoice(g, p).value, (x, y))
    ensures ComChoice(g, p).Some? && !IsCorner(ComChoice(g, p).value.0, ComChoice(g, p).value.1) ==>
      ComChoice(g, p).value == LegalMoves(g, p)[0]
  {
    var ms := LegalMoves(g, p);
    LegalMovesAreEmptyCells(g, p);
    BestMovePrefersCorners(g, p, ms);
    if ms != [] {
      var k := BestIndex(Scores(g, p, ms));
      assert ComChoice(g, p) == Some(ms[k]);
      ChoiceIsListed(g, p, ms, k);
      ChoiceCorner(g, p, ms, k);
      if IsCorner(ms[k].0, ms[k].1) {
        LegalMovesOrdered(g, p);
        FirstCornerOfList(ms, k);
        ChoiceFirstCorner(g, p, ms, k);
      }
    }
  }

  lemma ChoiceIsListed(g: Grid, p: Player, ms: seq<Move>, k: int)
    requires WellFormed(g) && ms == LegalMoves(g, p) && 0 <= k < |ms|
    ensures Legal(g, p, ms[k].0, ms[k].1)
  {
    assert ms[k] in ms;
    LegalMoveAt(g, p, ms[k].0, ms[k].1);
  }

  /** The chosen cell is a corner exactly when some legal cell is. */
  lemma ChoiceCorner(g: Grid, p: Player, ms: seq<Move>, k: int)
    requires WellFormed(g) && ms == LegalMoves(g, p) && 0 <= k < |ms|
    requires IsCorner(ms[k].0, ms[k].1) <==> exists m :: 0 <= m < |ms| && IsCorner(ms[m].0, ms[m].1)
    ensures IsCorner(ms[k].0, ms[k].1) <==> exists x, y :: IsCorner(x, y) && Legal(g, p, x, y)
  {
    if exists x, y :: IsCorner(x, y) && Legal(g, p, x, y) {
      var x, y :| IsCorner(x, y) && Legal(g, p, x, y);
      ListedCorner(g, p, ms, x, y);
    }
    if IsCorner(ms[k].0, ms[k].1) {
      ChoiceIsListed(g, p, ms, k);
    }
  }

  lemma ListedCorner(g: Grid, p: Player, ms: seq<Move>, x: int, y: int)
    requires WellFormed(g) && ms == LegalMoves(g, p) && IsCorner(x, y) && Legal(g, p, x, y)
    ensures exists m :: 0 <= m < |ms| && IsCorner(ms[m].0, ms[m].1)
  {
    LegalMoveAt(g, p, x, y);
    var n :| 0 <= n < |ms| && ms[n] == (x, y);
  }

  /** In a row-major list, a corner with no corner before it precedes every other corner. */
  lemma FirstCornerOfList(ms: seq<Move>, k: int)
    requires StrictlyOrdered(ms) && 0 <= k < |ms|
    requires forall m :: 0 <= m < k ==> !IsCorner(ms[m].0, ms[m].1)
    ensures forall n :: 0 <= n < |ms| && IsCorner(ms[n].0, ms[n].1) ==> n == k || ScannedBefore(ms[k], ms[n])
  {
  }

  lemma ChoiceFirstCorner(g: Grid, p: Player, ms: seq<Move>, k: int)
    requires WellFormed(g) && ms == LegalMoves(g, p) && 0 <= k < |ms|
    requires forall n :: 0 <= n < |ms| && IsCorner(ms[n].0, ms[n].1) ==> n == k || ScannedBefore(ms[k], ms[n])
    ensures forall x, y :: IsCorner(x, y) && Legal(g, p, x, y) ==> (x, y) == ms[k] || ScannedBefore(ms[k], (x, y))
  {
    forall x, y | IsCorner(x, y) && Legal(g, p, x, y) ensures (x, y) == ms[k] || ScannedBefore(ms[k], (x, y)) {
      LegalMoveAt(g, p, x, y);
      var n :| 0 <= n < |ms| && ms[n] == (x, y);
    }
  }
}
