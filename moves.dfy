/**
 * The list of legal moves that `getPlacable` builds: every cell where
 * `checkPlacable` holds, scanned with the row y outer and the column x inner.
 */
module Moves {
  import opened Board
  import opened Rules

  /** Cells are reported as (x, y) pairs. */
  type Move = (int, int)

  /** Row-major order: a is scanned before b. */
  predicate ScannedBefore(a: Move, b: Move) {
    a.1 < b.1 || (a.1 == b.1 && a.0 < b.0)
  }

  predicate StrictlyOrdered(s: seq<Move>) {
    forall m, n :: 0 <= m < n < |s| ==> ScannedBefore(s[m], s[n])
  }

  /** The cells (x', y) with x' < x that satisfy f, in the order the inner loop appends them. */
  ghost function RowCells(f: Move -> bool, y: int, x: int): seq<Move>
    requires 0 <= x
    decreases x
  {
    if x == 0 then []
    else RowCells(f, y, x - 1) + (if f((x - 1, y)) then [(x - 1, y)] else [])
  }

  /**
   * The cells of the rows above y that satisfy f, in the order the outer loop
   * appends them; w is the width of a row.
   */
  ghost function CellsBefore(f: Move -> bool, y: int, w: int): seq<Move>
    requires 0 <= y && 0 <= w
    decreases y
  {
    if y == 0 then [] else CellsBefore(f, y - 1, w) + RowCells(f, y - 1, w)
  }

  /** What the nested scan has appended once it reaches column x of row y. */
  ghost function Collected(f: Move -> bool, y: int, w: int, x: int): seq<Move>
    requires 0 <= y && 0 <= w && 0 <= x
  {
    CellsBefore(f, y, w) + RowCells(f, y, x)
  }

  /** One step of the inner loop appends (x, y) exactly when f holds there. */
  lemma CollectedStep(f: Move -> bool, y: int, w: int, x: int)
    requires 0 <= y && 0 <= w && 0 <= x
    ensures Collected(f, y, w, x + 1) == Collected(f, y, w, x) + (if f((x, y)) then [(x, y)] else [])
  {
  }

  /** A row starts with the rows above it and, once complete, is one of them. */
  lemma CollectedEnds(f: Move -> bool, y: int, w: int)
    requires 0 <= y && 0 <= w
    ensures Collected(f, y, w, 0) == CellsBefore(f, y, w)
    ensures Collected(f, y, w, w) == CellsBefore(f, y + 1, w)
  {
  }

  /** The test `checkPlacable` applies to one cell. */
  ghost function LegalAt(g: Grid, p: Player): Move -> bool {
    (e: Move) => WellFormed(g) && Legal(g, p, e.0, e.1)
  }

  /** What `getPlacable` returns for player p: every row of g, every column. */
  ghost function LegalMoves(g: Grid, p: Player): seq<Move>
    requires WellFormed(g)
  {
    CellsBefore(LegalAt(g, p), |g|, |g|)
  }

  lemma OrderedConcat(a: seq<Move>, b: seq<Move>)
    requires StrictlyOrdered(a) && StrictlyOrdered(b)
    requires forall m, n :: 0 <= m < |a| && 0 <= n < |b| ==> ScannedBefore(a[m], b[n])
    ensures StrictlyOrdered(a + b)
  {
    forall m, n | 0 <= m < n < |a + b| ensures ScannedBefore((a + b)[m], (a + b)[n]) {
      if n < |a| {
        assert (a + b)[m] == a[m] && (a + b)[n] == a[n];
      } else if m < |a| {
        assert (a + b)[m] == a[m] && (a + b)[n] == b[n - |a|];
      } else {
        assert (a + b)[m] == b[m - |a|] && (a + b)[n] == b[n - |a|];
      }
    }
  }

  /** Every cell `RowCells` lists lies in row y, left of column x. */
  lemma {:induction false} RowCellsBounds(f: Move -> bool, y: int, x: int)
    requires 0 <= x
    ensures forall m :: 0 <= m < |RowCells(f, y, x)| ==>
      RowCells(f, y, x)[m].1 == y && 0 <= RowCells(f, y, x)[m].0 < x
    decreases x
  {
    if x > 0 {
      RowCellsBounds(f, y, x - 1);
      var a := RowCells(f, y, x - 1);
      var tail: seq<Move> := if f((x - 1, y)) then [(x - 1, y)] else [];
      assert RowCells(f, y, x) == a + tail;
      forall m | 0 <= m < |a + tail| ensures (a + tail)[m].1 == y && 0 <= (a + tail)[m].0 < x {
        if m < |a| {
          assert (a + tail)[m] == a[m];
        } else {
          assert (a + tail)[m] == tail[m - |a|];
        }
      }
    }
  }

  lemma {:induction false} RowCellsOrdered(f: Move -> bool, y: int, x: int)
    requires 0 <= x
    ensures StrictlyOrdered(RowCells(f, y, x))
    decreases x
  {
    if x > 0 {
      RowCellsBounds(f, y, x - 1);
      RowCellsOrdered(f, y, x - 1);
      var a := RowCells(f, y, x - 1);
      var tail: seq<Move> := if f((x - 1, y)) then [(x - 1, y)] else [];
      forall m, n | 0 <= m < |a| && 0 <= n < |tail| ensures ScannedBefore(a[m], tail[n]) {
      }
      OrderedConcat(a, tail);
    }
  }

  /** Every cell `CellsBefore` lists lies in a row above y. */
  lemma {:induction false} CellsBeforeBounds(f: Move -> bool, y: int, w: int)
    requires 0 <= y && 0 <= w
    ensures forall m :: 0 <= m < |CellsBefore(f, y, w)| ==> 0 <= CellsBefore(f, y, w)[m].1 < y
    decreases y
  {
    if y > 0 {
      CellsBeforeBounds(f, y - 1, w);
      RowCellsBounds(f, y - 1, w);
      var a: seq<Move>, b: seq<Move> := CellsBefore(f, y - 1, w), RowCells(f, y - 1, w);
      assert CellsBefore(f, y, w) == a + b;
      forall m | 0 <= m < |a + b| ensures 0 <= (a + b)[m].1 < y {
        if m < |a| {
          assert (a + b)[m] == a[m];
        } else {
          assert (a + b)[m] == b[m - |a|];
        }
      }
    }
  }

  lemma {:induction false} CellsBeforeOrdered(f: Move -> bool, y: int, w: int)
    requires 0 <= y && 0 <= w
    ensures StrictlyOrdered(CellsBefore(f, y, w))
    decreases y
  {
    if y > 0 {
      var a: seq<Move>, b: seq<Move> := CellsBefore(f, y - 1, w), RowCells(f, y - 1, w);
      CellsBeforeBounds(f, y - 1, w);
      CellsBeforeOrdered(f, y - 1, w);
      RowCellsBounds(f, y - 1, w);
      RowCellsOrdered(f, y - 1, w);
      forall m, n | 0 <= m < |a| && 0 <= n < |b| ensures ScannedBefore(a[m], b[n]) {
      }
      OrderedConcat(a, b);
    }
  }

  /** Cell e is in `RowCells` exactly when it lies in row y, left of column x, and satisfies f. */
  lemma {:induction false} RowCellsHas(f: Move -> bool, y: int, x: int, e: Move)
    requires 0 <= x
    ensures e in RowCells(f, y, x) <==> e.1 == y && 0 <= e.0 < x && f(e)
    decreases x
  {
    if x > 0 {
      RowCellsHas(f, y, x - 1, e);
    }
  }

  /** Cell e is in `CellsBefore` exactly when it lies in a row above y, left of column w, and satisfies f. */
  lemma {:induction false} CellsBeforeHas(f: Move -> bool, y: int, w: int, e: Move)
    requires 0 <= y && 0 <= w
    ensures e in CellsBefore(f, y, w) <==> 0 <= e.1 < y && 0 <= e.0 < w && f(e)
    decreases y, 1
  {
    if y > 0 {
      CellsBeforeHasStep(f, y, w, e);
    }
  }

  /** Adding row y - 1 adds exactly the cells of that row that satisfy f. */
  lemma {:induction false} CellsBeforeHasStep(f: Move -> bool, y: int, w: int, e: Move)
    requires 0 < y && 0 <= w
    ensures e in CellsBefore(f, y, w) <==> 0 <= e.1 < y && 0 <= e.0 < w && f(e)
    decreases y, 0
  {
    CellsBeforeHas(f, y - 1, w, e);
    RowCellsHas(f, y - 1, w, e);
    assert CellsBefore(f, y, w) == CellsBefore(f, y - 1, w) + RowCells(f, y - 1, w);
  }

  /** `getPlacable` lists exactly the cells where a disk may be placed. */
  lemma LegalMovesMembers(g: Grid, p: Player)
    requires WellFormed(g)
    ensures forall x, y :: (x, y) in LegalMoves(g, p) <==> Legal(g, p, x, y)
  {
    forall x, y ensures (x, y) in LegalMoves(g, p) <==> Legal(g, p, x, y) {
      LegalMoveAt(g, p, x, y);
    }
  }

  lemma LegalMoveAt(g: Grid, p: Player, x: int, y: int)
    requires WellFormed(g)
    ensures (x, y) in LegalMoves(g, p) <==> Legal(g, p, x, y)
  {
    ListedIffTested(g, p, x, y);
    TestIsLegal(g, p, x, y);
  }

  lemma ListedIffTested(g: Grid, p: Player, x: int, y: int)
    requires WellFormed(g)
    ensures (x, y) in LegalMoves(g, p) <==> InBounds(x, y) && LegalAt(g, p)((x, y))
  {
    CellsBeforeHas(LegalAt(g, p), |g|, |g|, (x, y));
  }

  lemma TestIsLegal(g: Grid, p: Player, x: int, y: int)
    requires WellFormed(g)
    ensures InBounds(x, y) && LegalAt(g, p)((x, y)) <==> Legal(g, p, x, y)
  {
  }

  /** `getPlacable` lists each cell once, in row-major order (y outer, x inner). */
  lemma LegalMovesOrdered(g: Grid, p: Player)
    requires WellFormed(g)
    ensures StrictlyOrdered(LegalMoves(g, p))
    ensures forall m, n :: 0 <= m < n < |LegalMoves(g, p)| ==> LegalMoves(g, p)[m] != LegalMoves(g, p)[n]
  {
    CellsBeforeOrdered(LegalAt(g, p), |g|, |g|);
  }

  /** Player p can move: `len(getPlacable()) != 0`. */
  ghost predicate HasMove(g: Grid, p: Player)
    requires WellFormed(g)
  {
    LegalMoves(g, p) != []
  }

  lemma HasMoveIff(g: Grid, p: Player)
    requires WellFormed(g)
    ensures HasMove(g, p) <==> exists x, y :: Legal(g, p, x, y)
  {
    LegalMovesMembers(g, p);
    if HasMove(g, p) {
      var e := LegalMoves(g, p)[0];
      assert e in LegalMoves(g, p);
      assert Legal(g, p, e.0, e.1);
    }
  }

  /** Two row-major-sorted lists of the same cells are the same list. */
  lemma {:induction false} OrderedUnique(s: seq<Move>, t: seq<Move>)
    requires StrictlyOrdered(s) && StrictlyOrdered(t)
    requires forall e :: e in s <==> e in t
    ensures s == t
    decreases |s|
  {
    if s == [] {
      assert forall i :: 0 <= i < |t| ==> t[i] in t;
    } else {
      assert s[0] in t && t != [];
      assert t[0] in s;
      var m :| 0 <= m < |t| && t[m] == s[0];
      var n :| 0 <= n < |s| && s[n] == t[0];
      var s0, t0 := s[0], t[0];
      assert m == 0 || ScannedBefore(t0, s0);
      assert n == 0 || ScannedBefore(s0, t0);
      assert s[0] == t[0];
      forall e ensures e in s[1..] <==> e in t[1..] {
        if e in s[1..] {
          var a :| 0 <= a < |s| - 1 && s[1..][a] == e;
          assert ScannedBefore(s[0], s[a + 1]);
          assert e in t;
          var b :| 0 <= b < |t| && t[b] == e;
          assert b != 0;
          assert t[1..][b - 1] == e;
        }
        if e in t[1..] {
          var b :| 0 <= b < |t| - 1 && t[1..][b] == e;
          assert ScannedBefore(t[0], t[b + 1]);
          assert e in s;
          var a :| 0 <= a < |s| && s[a] == e;
          assert a != 0;
          assert s[1..][a - 1] == e;
        }
      }
      OrderedUnique(s[1..], t[1..]);
      assert s == [s[0]] + s[1..] && t == [t[0]] + t[1..];
    }
  }

  /** In the opening position only four cells lie next to a COM disk that is backed by a YOU disk. */
  lemma OpeningLegal(X: int, Y: int)
    ensures Legal(InitialGrid(), You, X, Y) <==> (X, Y) in OpeningCells
  {
    var g := InitialGrid();
    InitialLayout();
    if (X, Y) == (3, 2) {
      assert Brackets(g, Black, X, Y, 0, 1, 2);
    } else if (X, Y) == (2, 3) {
      assert Brackets(g, Black, X, Y, 1, 0, 2);
    } else if (X, Y) == (5, 4) {
      assert Brackets(g, Black, X, Y, -1, 0, 2);
    } else if (X, Y) == (4, 5) {
      assert Brackets(g, Black, X, Y, 0, -1, 2);
    } else {
      forall i, j, k ensures !Brackets(g, Black, X, Y, i, j, k) {
        if IsDirection(i, j) && 2 <= k && RayIn(X, Y, i, j, 1) && RayIn(X, Y, i, j, k) {
          RayConvex(X, Y, i, j, 1, k, 2);
          if RayAt(g, X, Y, i, j, 1) == Stone(White) && RayAt(g, X, Y, i, j, 2) == Stone(White) {
            assert RayAt(g, X, Y, i, j, 3) != Stone(Black);
          }
        }
      }
    }
  }

  /** The four cells YOU may play first, in row-major order. */
  const OpeningCells: seq<Move> := [(3, 2), (2, 3), (5, 4), (4, 5)]

  lemma OpeningCellsOrdered(s: seq<Move>)
    requires s == OpeningCells
    ensures StrictlyOrdered(s)
  {
    assert s[0].1 < s[1].1 < s[2].1 < s[3].1;
  }

  lemma OpeningMembers(g: Grid)
    requires g == InitialGrid()
    ensures forall e :: e in LegalMoves(g, You) <==> e in OpeningCells
  {
    forall e ensures e in LegalMoves(g, You) <==> e in OpeningCells {
      LegalMoveAt(g, You, e.0, e.1);
      OpeningLegal(e.0, e.1);
    }
  }

  /** YOU's moves in the opening, in the order `getPlacable` reports them. */
  lemma OpeningMoves(g: Grid)
    requires g == InitialGrid()
    ensures LegalMoves(g, You) == OpeningCells
  {
    LegalMovesOrdered(g, You);
    OpeningMembers(g);
    OpeningCellsOrdered(OpeningCells);
    OrderedUnique(LegalMoves(g, You), OpeningCells);
  }
}
