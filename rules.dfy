/**
 * The rules engine: the eight-way ray scan that decides whether a disk may be
 * placed (checkPlacable) and the flips a placement causes (reverse).
 *
 * A ray from (x, y) in direction (i, j) visits the cells (x + i*s, y + j*s) for
 * steps s = 1, 2, ...  The declarative reading is `Brackets`: a run of one or
 * more opponent disks starting next to the target and closed by a disk of the
 * mover's colour.  `ScanFrom` follows the source's step loop; `BracketEndCorrect`
 * shows the two agree.
 */
module Rules {
  import opened Board

  /** The eight compass directions; the source also visits (0, 0) and skips it. */
  predicate IsDirection(i: int, j: int) {
    -1 <= i <= 1 && -1 <= j <= 1 && (i != 0 || j != 0)
  }

  predicate IsUnit(i: int, j: int) {
    -1 <= i <= 1 && -1 <= j <= 1
  }

  /** `x + i * s` for a unit step i in {-1, 0, 1}. */
  function Step(x: int, i: int, s: int): int {
    if i == 0 then x else if i > 0 then x + s else x - s
  }

  /** Step s of the ray lies on the board. */
  predicate RayIn(x: int, y: int, i: int, j: int, s: int) {
    InBounds(Step(x, i, s), Step(y, j, s))
  }

  function RayAt(g: Grid, x: int, y: int, i: int, j: int, s: int): Cell
    requires WellFormed(g) && RayIn(x, y, i, j, s)
  {
    g[Step(y, j, s)][Step(x, i, s)]
  }

  /**
   * In direction (i, j) the cells at steps 1 .. k-1 hold opponent disks and the
   * cell at step k holds a disk of colour c; all of them are on the board.
   */
  ghost predicate Brackets(g: Grid, c: Color, x: int, y: int, i: int, j: int, k: int)
    requires WellFormed(g)
  {
    IsDirection(i, j) && 2 <= k && RayIn(x, y, i, j, k) && RayAt(g, x, y, i, j, k) == Stone(c) &&
    forall n :: 1 <= n < k ==> RayIn(x, y, i, j, n) && RayAt(g, x, y, i, j, n) == Stone(Opposite(c))
  }

  /** Player p may place a disk on (x, y): it is empty and some direction brackets. */
  ghost predicate Legal(g: Grid, p: Player, x: int, y: int)
    requires WellFormed(g)
  {
    InBounds(x, y) && g[y][x] == Empty &&
    exists i, j, k :: Brackets(g, ColorOf(p), x, y, i, j, k)
  }

  /**
   * The step loop `for s in range(2, NUM_SQUARE)`: an off-board step is passed
   * over, an empty cell ends the scan, a disk of colour c closes the run at s.
   */
  function ScanFrom(g: Grid, c: Color, x: int, y: int, i: int, j: int, s: int): Option<int>
    requires WellFormed(g) && 2 <= s <= N
    decreases N - s
  {
    if s == N then None
    else if !RayIn(x, y, i, j, s) then ScanFrom(g, c, x, y, i, j, s + 1)
    else if RayAt(g, x, y, i, j, s) == Empty then None
    else if RayAt(g, x, y, i, j, s) == Stone(c) then Some(s)
    else ScanFrom(g, c, x, y, i, j, s + 1)
  }

  /** One direction of the scan: the step of the closing disk, if the direction qualifies. */
  function BracketEnd(g: Grid, c: Color, x: int, y: int, i: int, j: int): Option<int>
    requires WellFormed(g)
  {
    if !IsDirection(i, j) || !RayIn(x, y, i, j, 1) || RayAt(g, x, y, i, j, 1) != Stone(Opposite(c)) then None
    else ScanFrom(g, c, x, y, i, j, 2)
  }

  lemma RayConvex(x: int, y: int, i: int, j: int, a: int, b: int, n: int)
    requires IsUnit(i, j) && RayIn(x, y, i, j, a) && RayIn(x, y, i, j, b) && a <= n <= b
    ensures RayIn(x, y, i, j, n)
  {
  }

  lemma {:induction false} ScanFromCorrect(g: Grid, c: Color, x: int, y: int, i: int, j: int, s: int)
    requires WellFormed(g) && InBounds(x, y) && IsDirection(i, j) && 2 <= s <= N
    requires RayIn(x, y, i, j, 1) && RayAt(g, x, y, i, j, 1) == Stone(Opposite(c))
    requires forall n :: 1 <= n < s && RayIn(x, y, i, j, n) ==> RayAt(g, x, y, i, j, n) == Stone(Opposite(c))
    ensures forall k :: ScanFrom(g, c, x, y, i, j, s) == Some(k) <==> Brackets(g, c, x, y, i, j, k)
    decreases N - s
  {
    if s == N {
      forall k ensures !Brackets(g, c, x, y, i, j, k) {
        if k >= N {
          assert !RayIn(x, y, i, j, k);
        } else if 1 <= k && RayIn(x, y, i, j, k) {
          assert RayAt(g, x, y, i, j, k) != Stone(c);
        }
      }
    } else if !RayIn(x, y, i, j, s) {
      ScanFromCorrect(g, c, x, y, i, j, s + 1);
    } else if RayAt(g, x, y, i, j, s) == Empty {
      forall k ensures !Brackets(g, c, x, y, i, j, k) {
        if 1 <= k < s && RayIn(x, y, i, j, k) {
          assert RayAt(g, x, y, i, j, k) != Stone(c);
        } else if k > s {
          assert RayAt(g, x, y, i, j, s) != Stone(Opposite(c));
        }
      }
    } else if RayAt(g, x, y, i, j, s) == Stone(c) {
      forall n | 1 <= n < s ensures RayIn(x, y, i, j, n) {
        RayConvex(x, y, i, j, 1, s, n);
      }
      assert Brackets(g, c, x, y, i, j, s);
      forall k | k != s ensures !Brackets(g, c, x, y, i, j, k) {
        if k > s {
          assert RayAt(g, x, y, i, j, s) != Stone(Opposite(c));
        } else if 1 <= k < s && RayIn(x, y, i, j, k) {
          assert RayAt(g, x, y, i, j, k) != Stone(c);
        }
      }
    } else {
      ScanFromCorrect(g, c, x, y, i, j, s + 1);
    }
  }

  /** The scan of one direction finds step k exactly when k closes a bracketing run. */
  lemma BracketEndCorrect(g: Grid, c: Color, x: int, y: int, i: int, j: int)
    requires WellFormed(g) && InBounds(x, y)
    ensures forall k :: BracketEnd(g, c, x, y, i, j) == Some(k) <==> Brackets(g, c, x, y, i, j, k)
  {
    if !IsDirection(i, j) {
    } else if !RayIn(x, y, i, j, 1) || RayAt(g, x, y, i, j, 1) != Stone(Opposite(c)) {
      forall k ensures !Brackets(g, c, x, y, i, j, k) {
      }
    } else {
      ScanFromCorrect(g, c, x, y, i, j, 2);
    }
  }

  /**
   * `checkPlacable` as the source runs it: the target is empty and the scan of
   * one of the nine offsets (i, j) closes a run.
   */
  lemma LegalIffSomeEnd(g: Grid, p: Player, x: int, y: int)
    requires WellFormed(g) && InBounds(x, y)
    ensures Legal(g, p, x, y) <==>
      g[y][x] == Empty && exists i, j :: IsUnit(i, j) && BracketEnd(g, ColorOf(p), x, y, i, j).Some?
  {
    var c := ColorOf(p);
    if Legal(g, p, x, y) {
      var i, j, k :| Brackets(g, c, x, y, i, j, k);
      BracketEndCorrect(g, c, x, y, i, j);
      assert IsUnit(i, j) && BracketEnd(g, c, x, y, i, j).Some?;
    }
    if g[y][x] == Empty && exists i, j :: IsUnit(i, j) && BracketEnd(g, c, x, y, i, j).Some? {
      var i, j :| IsUnit(i, j) && BracketEnd(g, c, x, y, i, j).Some?;
      BracketEndCorrect(g, c, x, y, i, j);
      assert Brackets(g, c, x, y, i, j, BracketEnd(g, c, x, y, i, j).value);
    }
  }

  /** A direction whose scan closes makes the (empty) target legal. */
  lemma LegalFromEnd(g: Grid, p: Player, x: int, y: int, i: int, j: int)
    requires WellFormed(g) && InBounds(x, y) && g[y][x] == Empty && IsUnit(i, j)
    requires BracketEnd(g, ColorOf(p), x, y, i, j).Some?
    ensures Legal(g, p, x, y)
  {
    LegalIffSomeEnd(g, p, x, y);
  }

  /** Which direction numbers d (see `DirI`, `DirJ`) close a run from (x, y). */
  function CloseTest(g: Grid, c: Color, x: int, y: int): int -> bool {
    d => WellFormed(g) && BracketEnd(g, c, x, y, DirI(d), DirJ(d)).Some?
  }

  /** When none of the nine scans closes, the target is not legal. */
  lemma NotLegalWithoutEnds(g: Grid, p: Player, x: int, y: int)
    requires WellFormed(g) && InBounds(x, y)
    requires !AnyBelow(CloseTest(g, ColorOf(p), x, y), 9)
    ensures !Legal(g, p, x, y)
  {
    LegalIffSomeEnd(g, p, x, y);
    AnyBelowExists(CloseTest(g, ColorOf(p), x, y), 9);
    forall i, j | IsUnit(i, j) ensures BracketEnd(g, ColorOf(p), x, y, i, j).None? {
      DirOfIndex(i, j);
      assert !CloseTest(g, ColorOf(p), x, y)((j + 1) * 3 + (i + 1));
    }
  }

  /** The flip loop `for n in range(1, s)`: steps 1 .. n-1 take colour c. */
  function FlipSteps(g: Grid, c: Color, x: int, y: int, i: int, j: int, n: int): (r: Grid)
    requires WellFormed(g) && 1 <= n
    requires forall m :: 1 <= m < n ==> RayIn(x, y, i, j, m)
    ensures WellFormed(r)
    decreases n
  {
    if n == 1 then g
    else
      assert RayIn(x, y, i, j, n - 1);
      Write(FlipSteps(g, c, x, y, i, j, n - 1), Step(x, i, n - 1), Step(y, j, n - 1), Stone(c))
  }

  /** One direction of `reverse`: flip the bracketed run, if there is one. */
  function FlipDir(g: Grid, c: Color, x: int, y: int, i: int, j: int): (r: Grid)
    requires WellFormed(g) && InBounds(x, y)
    ensures WellFormed(r)
  {
    match BracketEnd(g, c, x, y, i, j)
    case None => g
    case Some(k) =>
      BracketEndCorrect(g, c, x, y, i, j);
      FlipSteps(g, c, x, y, i, j, k)
  }

  /** When direction (i, j) closes at step k, its flips are the flip loop run up to k. */
  lemma FlipDirAtEnd(g: Grid, c: Color, x: int, y: int, i: int, j: int, k: int)
    requires WellFormed(g) && InBounds(x, y) && BracketEnd(g, c, x, y, i, j) == Some(k)
    ensures 1 <= k && forall m :: 1 <= m < k ==> RayIn(x, y, i, j, m)
    ensures FlipDir(g, c, x, y, i, j) == FlipSteps(g, c, x, y, i, j, k)
  {
    BracketEndCorrect(g, c, x, y, i, j);
    assert Brackets(g, c, x, y, i, j, k);
  }

  /** Direction number d = 3 * (j + 1) + (i + 1) of the scan order, j outer and i inner. */
  function DirI(d: int): int {
    if d < 3 then d - 1 else if d < 6 then d - 4 else d - 7
  }

  function DirJ(d: int): int {
    if d < 3 then -1 else if d < 6 then 0 else 1
  }

  lemma DirOfIndex(i: int, j: int)
    requires IsUnit(i, j)
    ensures 0 <= (j + 1) * 3 + (i + 1) < 9
    ensures DirI((j + 1) * 3 + (i + 1)) == i && DirJ((j + 1) * 3 + (i + 1)) == j
  {
  }

  lemma DirInjective(d: int, e: int)
    requires 0 <= d < 9 && 0 <= e < 9
    requires DirI(d) == DirI(e) && DirJ(d) == DirJ(e)
    ensures d == e
  {
  }

  /** The first d directions of the scan applied in order, each to the board the previous left. */
  function FoldDirs(g: Grid, c: Color, x: int, y: int, d: int): (r: Grid)
    requires WellFormed(g) && InBounds(x, y) && 0 <= d <= 9
    ensures WellFormed(r)
    decreases d
  {
    if d == 0 then g
    else FlipDir(FoldDirs(g, c, x, y, d - 1), c, x, y, DirI(d - 1), DirJ(d - 1))
  }

  /** `reverse(x, y)` for a mover of colour c: nothing when (x, y) is occupied. */
  function ReverseGrid(g: Grid, c: Color, x: int, y: int): (r: Grid)
    requires WellFormed(g) && InBounds(x, y)
    ensures WellFormed(r)
  {
    if g[y][x] != Empty then g else FoldDirs(g, c, x, y, 9)
  }

  /** The step at which the ray in direction (i, j) would reach (X, Y). */
  function RayIndex(x: int, y: int, i: int, j: int, X: int, Y: int): int {
    if i > 0 then X - x else if i < 0 then x - X else if j > 0 then Y - y else y - Y
  }

  /** (X, Y) is on the ray from (x, y) in direction (i, j), at step 1 or later. */
  predicate OnRay(x: int, y: int, i: int, j: int, X: int, Y: int) {
    var n := RayIndex(x, y, i, j, X, Y);
    n >= 1 && X == Step(x, i, n) && Y == Step(y, j, n)
  }

  lemma OnRayStep(x: int, y: int, i: int, j: int, n: int)
    requires IsDirection(i, j) && n >= 1
    ensures OnRay(x, y, i, j, Step(x, i, n), Step(y, j, n))
    ensures RayIndex(x, y, i, j, Step(x, i, n), Step(y, j, n)) == n
  {
  }

  /** Rays from one cell in two different directions share no cell. */
  lemma RaysDisjoint(x: int, y: int, i: int, j: int, i2: int, j2: int, X: int, Y: int)
    requires IsUnit(i, j) && IsUnit(i2, j2)
    requires OnRay(x, y, i, j, X, Y) && OnRay(x, y, i2, j2, X, Y)
    ensures i == i2 && j == j2
  {
  }

  /** (X, Y) lies strictly between the target and the closing disk in direction (i, j). */
  predicate FlippedIn(g: Grid, c: Color, x: int, y: int, i: int, j: int, X: int, Y: int)
    requires WellFormed(g)
  {
    var e := BracketEnd(g, c, x, y, i, j);
    OnRay(x, y, i, j, X, Y) && e.Some? && RayIndex(x, y, i, j, X, Y) < e.value
  }

  /**
   * The declarative flip set: (X, Y) lies strictly between the target (x, y)
   * and the closing disk of some bracketing direction.
   */
  ghost predicate InFlipRun(g: Grid, c: Color, x: int, y: int, X: int, Y: int)
    requires WellFormed(g)
  {
    exists i, j, k :: Brackets(g, c, x, y, i, j, k) && OnRay(x, y, i, j, X, Y) && RayIndex(x, y, i, j, X, Y) < k
  }

  lemma {:induction false} FlipStepsAt(g: Grid, c: Color, x: int, y: int, i: int, j: int, n: int)
    requires WellFormed(g) && IsDirection(i, j) && 1 <= n
    requires forall m :: 1 <= m < n ==> RayIn(x, y, i, j, m)
    ensures forall Y, X :: InBounds(X, Y) ==>
      FlipSteps(g, c, x, y, i, j, n)[Y][X] ==
        if OnRay(x, y, i, j, X, Y) && RayIndex(x, y, i, j, X, Y) < n then Stone(c) else g[Y][X]
    decreases n
  {
    if n > 1 {
      FlipStepsAt(g, c, x, y, i, j, n - 1);
      OnRayStep(x, y, i, j, n - 1);
    }
  }

  lemma FlipDirAt(g: Grid, c: Color, x: int, y: int, i: int, j: int)
    requires WellFormed(g) && InBounds(x, y)
    ensures forall Y, X :: InBounds(X, Y) ==>
      FlipDir(g, c, x, y, i, j)[Y][X] == if FlippedIn(g, c, x, y, i, j, X, Y) then Stone(c) else g[Y][X]
  {
    match BracketEnd(g, c, x, y, i, j)
    case None =>
    case Some(k) =>
      BracketEndCorrect(g, c, x, y, i, j);
      FlipStepsAt(g, c, x, y, i, j, k);
  }

  lemma {:induction false} ScanFromLocal(g: Grid, h: Grid, c: Color, x: int, y: int, i: int, j: int, s: int)
    requires WellFormed(g) && WellFormed(h) && 2 <= s <= N
    requires forall m :: s <= m < N && RayIn(x, y, i, j, m) ==> RayAt(g, x, y, i, j, m) == RayAt(h, x, y, i, j, m)
    ensures ScanFrom(g, c, x, y, i, j, s) == ScanFrom(h, c, x, y, i, j, s)
    decreases N - s
  {
    if s < N {
      ScanFromLocal(g, h, c, x, y, i, j, s + 1);
    }
  }

  /** The scan of one direction reads nothing but the cells of its own ray. */
  lemma BracketEndLocal(g: Grid, h: Grid, c: Color, x: int, y: int, i: int, j: int)
    requires WellFormed(g) && WellFormed(h)
    requires forall m :: 1 <= m < N && RayIn(x, y, i, j, m) ==> RayAt(g, x, y, i, j, m) == RayAt(h, x, y, i, j, m)
    ensures BracketEnd(g, c, x, y, i, j) == BracketEnd(h, c, x, y, i, j)
  {
    ScanFromLocal(g, h, c, x, y, i, j, 2);
  }

  /** (X, Y) is flipped by direction number e of the scan, judged on board g. */
  predicate FlippedByDir(g: Grid, c: Color, x: int, y: int, e: int, X: int, Y: int)
    requires WellFormed(g)
  {
    FlippedIn(g, c, x, y, DirI(e), DirJ(e), X, Y)
  }

  /** Some index in [0, d) satisfies f. */
  predicate AnyBelow(f: int -> bool, d: int)
    decreases d
  {
    d > 0 && (AnyBelow(f, d - 1) || f(d - 1))
  }

  lemma {:induction false} AnyBelowExists(f: int -> bool, d: int)
    ensures AnyBelow(f, d) <==> exists e :: 0 <= e < d && f(e)
    decreases d
  {
    if d > 0 {
      AnyBelowExists(f, d - 1);
    }
  }

  lemma {:induction false} AnyBelowWitness(f: int -> bool, d: int, e: int)
    requires 0 <= e < d && f(e)
    ensures AnyBelow(f, d)
    decreases d
  {
    if e < d - 1 {
      AnyBelowWitness(f, d - 1, e);
    }
  }

  /** Which direction numbers flip (X, Y). */
  function FlipTest(g: Grid, c: Color, x: int, y: int, X: int, Y: int): int -> bool {
    e => WellFormed(g) && FlippedByDir(g, c, x, y, e, X, Y)
  }

  /** (X, Y) is flipped by one of the first d directions, each judged on the original board. */
  predicate FlippedBefore(g: Grid, c: Color, x: int, y: int, d: int, X: int, Y: int) {
    AnyBelow(FlipTest(g, c, x, y, X, Y), d)
  }

  lemma {:induction false} NotFlippedOnLaterRay(g: Grid, c: Color, x: int, y: int, d: int, e: int, X: int, Y: int)
    requires WellFormed(g) && 0 <= d <= e < 9
    requires OnRay(x, y, DirI(e), DirJ(e), X, Y)
    ensures !FlippedBefore(g, c, x, y, d, X, Y)
    decreases d
  {
    if d > 0 {
      NotFlippedOnLaterRay(g, c, x, y, d - 1, e, X, Y);
      if FlippedByDir(g, c, x, y, d - 1, X, Y) {
        RaysDisjoint(x, y, DirI(d - 1), DirJ(d - 1), DirI(e), DirJ(e), X, Y);
        DirInjective(d - 1, e);
      }
    }
  }

  lemma {:induction false} FoldDirsAt(g: Grid, c: Color, x: int, y: int, d: int)
    requires WellFormed(g) && InBounds(x, y) && 0 <= d <= 9
    ensures forall Y, X :: InBounds(X, Y) ==>
      FoldDirs(g, c, x, y, d)[Y][X] == if FlippedBefore(g, c, x, y, d, X, Y) then Stone(c) else g[Y][X]
    decreases d
  {
    if d > 0 {
      FoldDirsAt(g, c, x, y, d - 1);
      var G := FoldDirs(g, c, x, y, d - 1);
      var i, j := DirI(d - 1), DirJ(d - 1);
      if IsDirection(i, j) {
        forall m | 1 <= m < N && RayIn(x, y, i, j, m)
          ensures RayAt(G, x, y, i, j, m) == RayAt(g, x, y, i, j, m)
        {
          OnRayStep(x, y, i, j, m);
          NotFlippedOnLaterRay(g, c, x, y, d - 1, d - 1, Step(x, i, m), Step(y, j, m));
        }
        BracketEndLocal(G, g, c, x, y, i, j);
      }
      FlipDirAt(G, c, x, y, i, j);
    }
  }

  lemma FlippedBeforeIsRun(g: Grid, c: Color, x: int, y: int, X: int, Y: int)
    requires WellFormed(g) && InBounds(x, y) && FlippedBefore(g, c, x, y, 9, X, Y)
    ensures InFlipRun(g, c, x, y, X, Y)
  {
    AnyBelowExists(FlipTest(g, c, x, y, X, Y), 9);
    var e :| 0 <= e < 9 && FlippedByDir(g, c, x, y, e, X, Y);
    BracketEndCorrect(g, c, x, y, DirI(e), DirJ(e));
    var k := BracketEnd(g, c, x, y, DirI(e), DirJ(e)).value;
    assert Brackets(g, c, x, y, DirI(e), DirJ(e), k);
  }

  lemma RunIsFlippedBefore(g: Grid, c: Color, x: int, y: int, X: int, Y: int)
    requires WellFormed(g) && InBounds(x, y) && InFlipRun(g, c, x, y, X, Y)
    ensures FlippedBefore(g, c, x, y, 9, X, Y)
  {
    var i, j, k :| Brackets(g, c, x, y, i, j, k) && OnRay(x, y, i, j, X, Y) && RayIndex(x, y, i, j, X, Y) < k;
    BracketEndCorrect(g, c, x, y, i, j);
    assert BracketEnd(g, c, x, y, i, j) == Some(k);
    assert FlippedIn(g, c, x, y, i, j, X, Y);
    DirOfIndex(i, j);
    var e := (j + 1) * 3 + (i + 1);
    assert DirI(e) == i && DirJ(e) == j;
    assert FlippedByDir(g, c, x, y, e, X, Y);
    AnyBelowWitness(FlipTest(g, c, x, y, X, Y), 9, e);
  }

  /** A flipped cell held an opponent disk. */
  lemma RunWasOpponent(g: Grid, c: Color, x: int, y: int, X: int, Y: int)
    requires WellFormed(g) && InBounds(X, Y) && InFlipRun(g, c, x, y, X, Y)
    ensures g[Y][X] == Stone(Opposite(c))
  {
    var i, j, k :| Brackets(g, c, x, y, i, j, k) && OnRay(x, y, i, j, X, Y) && RayIndex(x, y, i, j, X, Y) < k;
    var n := RayIndex(x, y, i, j, X, Y);
    assert RayIn(x, y, i, j, n) && RayAt(g, x, y, i, j, n) == Stone(Opposite(c));
  }

  /**
   * What `reverse` does to a board whose target (x, y) is empty: exactly the
   * cells strictly between the target and the closing disk of each bracketing
   * direction turn to colour c; they held opponent disks; every other cell,
   * the target included, is left as it was.
   */
  lemma ReverseFlips(g: Grid, c: Color, x: int, y: int)
    requires WellFormed(g) && InBounds(x, y) && g[y][x] == Empty
    ensures forall Y, X :: InBounds(X, Y) ==>
      ReverseGrid(g, c, x, y)[Y][X] == if InFlipRun(g, c, x, y, X, Y) then Stone(c) else g[Y][X]
    ensures forall Y, X :: InBounds(X, Y) && InFlipRun(g, c, x, y, X, Y) ==> g[Y][X] == Stone(Opposite(c))
    ensures !InFlipRun(g, c, x, y, x, y)
  {
    FoldDirsAt(g, c, x, y, 9);
    forall Y, X | InBounds(X, Y)
      ensures FlippedBefore(g, c, x, y, 9, X, Y) <==> InFlipRun(g, c, x, y, X, Y)
    {
      if FlippedBefore(g, c, x, y, 9, X, Y) {
        FlippedBeforeIsRun(g, c, x, y, X, Y);
      }
      if InFlipRun(g, c, x, y, X, Y) {
        RunIsFlippedBefore(g, c, x, y, X, Y);
      }
    }
    forall Y, X | InBounds(X, Y) && InFlipRun(g, c, x, y, X, Y)
      ensures g[Y][X] == Stone(Opposite(c))
    {
      RunWasOpponent(g, c, x, y, X, Y);
    }
    if InFlipRun(g, c, x, y, x, y) {
      RunWasOpponent(g, c, x, y, x, y);
    }
  }

  /** A move is legal exactly when its target is empty and it would flip at least one disk. */
  lemma LegalIffFlips(g: Grid, p: Player, x: int, y: int)
    requires WellFormed(g) && InBounds(x, y)
    ensures Legal(g, p, x, y) <==>
      g[y][x] == Empty && exists Y, X :: InBounds(X, Y) && InFlipRun(g, ColorOf(p), x, y, X, Y)
  {
    var c := ColorOf(p);
    if Legal(g, p, x, y) {
      var i, j, k :| Brackets(g, c, x, y, i, j, k);
      OnRayStep(x, y, i, j, 1);
      assert InFlipRun(g, c, x, y, Step(x, i, 1), Step(y, j, 1));
    }
    if g[y][x] == Empty && exists Y, X :: InBounds(X, Y) && InFlipRun(g, c, x, y, X, Y) {
      var Y, X :| InBounds(X, Y) && InFlipRun(g, c, x, y, X, Y);
      var i, j, k :| Brackets(g, c, x, y, i, j, k) && OnRay(x, y, i, j, X, Y) && RayIndex(x, y, i, j, X, Y) < k;
    }
  }

  /** `place(x, y, color)`: the flips of `reverse` for player p, then the disk itself. */
  function PlaceGrid(g: Grid, p: Player, x: int, y: int, color: Color): (r: Grid)
    requires WellFormed(g) && InBounds(x, y)
    ensures WellFormed(r)
  {
    Write(ReverseGrid(g, ColorOf(p), x, y), x, y, Stone(color))
  }

  /**
   * Placing on an empty cell flips the bracketed runs to the mover's colour,
   * puts a disk of `color` on the target and changes nothing else; the number
   * of disks on the board grows by exactly one.
   */
  lemma PlacementEffect(g: Grid, p: Player, x: int, y: int, color: Color)
    requires WellFormed(g) && InBounds(x, y) && g[y][x] == Empty
    ensures forall Y, X :: InBounds(X, Y) ==>
      PlaceGrid(g, p, x, y, color)[Y][X] ==
        if X == x && Y == y then Stone(color)
        else if InFlipRun(g, ColorOf(p), x, y, X, Y) then Stone(ColorOf(p))
        else g[Y][X]
    ensures Disks(PlaceGrid(g, p, x, y, color)) == Disks(g) + 1
  {
    var c := ColorOf(p);
    var r := ReverseGrid(g, c, x, y);
    ReverseFlips(g, c, x, y);
    SameEmptyCells(r, g);
    CountWrite(r, x, y, Stone(color), Empty);
    DisksByEmpty(g);
    DisksByEmpty(r);
    DisksByEmpty(PlaceGrid(g, p, x, y, color));
  }
}
