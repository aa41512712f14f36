/**
 The capture rule of board.cpp: `checkMove`, `hasMoves`, `isDone` and
 `doMove`. Both `checkMove` and `doMove` walk the eight compass directions
 from the target cell; `Walk` is that walk, and `doMove`'s flipping is
 modelled as board.cpp performs it, one direction after the other on the
 board as changed so far. `Flipped` is the independent description of a
 move: the cells inside some bracketed opponent run, all turned at once.
 */
module Rules {
  import opened Common
  import opened Boards

  /** A compass step `(dx, dy)`. */
  datatype Dir = Dir(dx: int, dy: int)

  predicate IsDir(d: Dir) {
    -1 <= d.dx <= 1 && -1 <= d.dy <= 1 && (d.dx != 0 || d.dy != 0)
  }

  /** The eight directions, in the order both loops of board.cpp visit
      them: `dx` outer, `dy` inner, skipping `(0, 0)`. */
  const Directions: seq<Dir> :=
    [Dir(-1, -1), Dir(-1, 0), Dir(-1, 1), Dir(0, -1), Dir(0, 1), Dir(1, -1), Dir(1, 0), Dir(1, 1)]

  lemma DirectionsWellFormed()
    ensures |Directions| == 8
    ensures forall i | 0 <= i < 8 :: IsDir(Directions[i])
    ensures forall d: Dir | IsDir(d) :: d in Directions
    ensures forall i, j | 0 <= i < j < 8 :: Directions[i] != Directions[j]
  {
  }

  lemma DirectionIsDir(i: int)
    requires 0 <= i < 8
    ensures IsDir(Directions[i])
  {
  }

  /** A bound on the steps left before a walk along `d` leaves the board. */
  function Reach(x: int, y: int, d: Dir): int {
    if d.dx > 0 then 8 - x else if d.dx < 0 then x + 1 else if d.dy > 0 then 8 - y else y + 1
  }

  /** board.cpp's recurring test `onBoard(x, y) && get(side, x, y)`. */
  predicate Holds(b: Board, side: Side, x: int, y: int) {
    OnBoard(x, y) && Get(b, side, x, y)
  }

  /** Where a walk stops: the number of cells it passed and the cell it stopped on. */
  datatype Stop = Stop(count: nat, x: int, y: int)

  /** The walking loops of `checkMove` and `doMove`: step from `(x, y)`
      along `d` while the cell is on the board and holds a stone of `side`. */
  function Walk(b: Board, side: Side, x: int, y: int, d: Dir): (w: Stop)
    requires IsDir(d)
    ensures !Holds(b, side, w.x, w.y)
    ensures w.count == 0 <==> !Holds(b, side, x, y)
    decreases Reach(x, y, d)
  {
    if Holds(b, side, x, y) then
      var w := Walk(b, side, x + d.dx, y + d.dy, d);
      Stop(w.count + 1, w.x, w.y)
    else Stop(0, x, y)
  }

  /** The capture test `checkMove` performs in direction `d` from `(X, Y)`:
      the next cell holds an opponent stone, and the walk over the opponent
      run stops on one of `side`'s stones. */
  predicate Captures(b: Board, side: Side, X: int, Y: int, d: Dir)
    requires IsDir(d)
  {
    var w := Walk(b, Opponent(side), X + d.dx, Y + d.dy, d);
    w.count >= 1 && Holds(b, side, w.x, w.y)
  }

  /** `checkMove` for a concrete move: the target is free and some direction captures. */
  predicate LegalAt(b: Board, side: Side, p: Pos) {
    OnBoard(p.x, p.y) && !Occupied(b, p.x, p.y) && exists i | 0 <= i < 8 :: Captures(b, side, p.x, p.y, Directions[i])
  }

  /** The cell visited at step `k` of the C++ engine's nested `x`/`y` scans
      (`x` outer, `y` inner). */
  function ScanPos(k: int): Pos {
    Pos(k / 8, k % 8)
  }

  lemma ScanPosRank(k: int)
    requires 0 <= k < 64
    ensures OnBoard(ScanPos(k).x, ScanPos(k).y) && Rank(ScanPos(k)) == k
  {
  }

  /** The step of the scan that visits `p`. */
  function Rank(p: Pos): int {
    8 * p.x + p.y
  }

  lemma RankScanPos(p: Pos)
    requires OnBoard(p.x, p.y)
    ensures 0 <= Rank(p) < 64 && ScanPos(Rank(p)) == p
  {
  }

  /** `hasMoves`, from step `k` of the scan on. */
  function HasMovesFrom(b: Board, side: Side, k: int): (r: bool)
    requires 0 <= k <= 64
    ensures r <==> exists j | k <= j < 64 :: LegalAt(b, side, ScanPos(j))
    decreases 64 - k
  {
    if k == 64 then false
    else if LegalAt(b, side, ScanPos(k)) then true
    else HasMovesFrom(b, side, k + 1)
  }

  function HasMoves(b: Board, side: Side): bool {
    HasMovesFrom(b, side, 0)
  }

  /** `hasMoves(side)` holds iff some on-board cell is a legal move. */
  lemma HasMovesIff(b: Board, side: Side)
    ensures HasMoves(b, side) <==> exists x, y :: LegalAt(b, side, Pos(x, y))
  {
    if HasMoves(b, side) {
      var j :| 0 <= j < 64 && LegalAt(b, side, ScanPos(j));
      var p := ScanPos(j);
      assert p == Pos(p.x, p.y);
    }
    if exists x, y :: LegalAt(b, side, Pos(x, y)) {
      var x, y :| LegalAt(b, side, Pos(x, y));
      RankScanPos(Pos(x, y));
    }
  }

  /** `checkMove(m, side)`: a pass is legal iff there is no concrete move;
      a cell off the board is never a legal move. */
  predicate CheckMove(b: Board, m: Move, side: Side) {
    match m
    case None => !HasMoves(b, side)
    case Some(p) => LegalAt(b, side, p)
  }

  /** `isDone()`: neither side has a move. */
  predicate IsDone(b: Board) {
    !(HasMoves(b, Black) || HasMoves(b, White))
  }

  /** The inner `while` loop of `doMove`: set `side` on each cell from
      `(x, y)` along `d` while the cell holds an opponent stone. */
  function FlipRun(b: Board, side: Side, x: int, y: int, d: Dir): Board
    requires IsDir(d)
    decreases Reach(x, y, d)
  {
    if Holds(b, Opponent(side), x, y) then FlipRun(Set(b, side, x, y), side, x + d.dx, y + d.dy, d)
    else b
  }

  /** One direction of `doMove`: walk past the opponent run; if the walk
      stops on `side`'s stone, flip the run. */
  function FlipDir(b: Board, side: Side, X: int, Y: int, d: Dir): Board
    requires IsDir(d)
  {
    var w := Walk(b, Opponent(side), X + d.dx, Y + d.dy, d);
    if Holds(b, side, w.x, w.y) then FlipRun(b, side, X + d.dx, Y + d.dy, d) else b
  }

  /** The first `k` directions of `doMove`, in board.cpp's order. */
  function FlipAll(b: Board, side: Side, X: int, Y: int, k: int): Board
    requires 0 <= k <= 8
  {
    if k == 0 then b
    else
      DirectionIsDir(k - 1);
      FlipDir(FlipAll(b, side, X, Y, k - 1), side, X, Y, Directions[k - 1])
  }

  /** `doMove(m, side)`: a pass or an illegal move changes nothing;
      otherwise every direction is flipped and the target is set. */
  function DoMove(b: Board, m: Move, side: Side): Board {
    match m
    case None => b
    case Some(p) =>
      if !CheckMove(b, m, side) then b
      else Set(FlipAll(b, side, p.x, p.y, 8), side, p.x, p.y)
  }

  // ---------------------------------------------------------------------------
  // The simultaneous description of a move's flips.

  /** `(x', y')` is one of the first `n` cells of the walk from `(x, y)` along `d`. */
  predicate OnSegment(x: int, y: int, d: Dir, x': int, y': int, n: int)
    decreases n
  {
    n > 0 && ((x', y') == (x, y) || OnSegment(x + d.dx, y + d.dy, d, x', y', n - 1))
  }

  /** Direction `d` captures, and `(x', y')` is in the opponent run it brackets. */
  predicate FlippedBy(b: Board, side: Side, X: int, Y: int, d: Dir, x': int, y': int)
    requires IsDir(d)
  {
    Captures(b, side, X, Y, d)
    && OnSegment(X + d.dx, Y + d.dy, d, x', y', Walk(b, Opponent(side), X + d.dx, Y + d.dy, d).count)
  }

  /** A move at `(X, Y)` flips `(x', y')`: the cell lies inside a bracketed
      opponent run in some direction. */
  ghost predicate Flipped(b: Board, side: Side, X: int, Y: int, x': int, y': int) {
    exists d: Dir | IsDir(d) :: FlippedBy(b, side, X, Y, d, x', y')
  }

  /** `(x', y')` is flipped by one of the first `k` directions of `doMove`. */
  predicate FlippedBefore(b: Board, side: Side, X: int, Y: int, k: int, x': int, y': int)
    requires 0 <= k <= 8
  {
    k > 0 && (FlippedBefore(b, side, X, Y, k - 1, x', y') || FlippedByDirection(b, side, X, Y, k - 1, x', y'))
  }

  predicate FlippedByDirection(b: Board, side: Side, X: int, Y: int, i: int, x': int, y': int)
    requires 0 <= i < 8
  {
    DirectionIsDir(i);
    FlippedBy(b, side, X, Y, Directions[i], x', y')
  }

  lemma {:induction false} FlippedBeforeSome(b: Board, side: Side, X: int, Y: int, k: int, x': int, y': int)
    requires 0 <= k <= 8
    ensures FlippedBefore(b, side, X, Y, k, x', y') <==> exists i | 0 <= i < k :: FlippedByDirection(b, side, X, Y, i, x', y')
  {
    if k > 0 {
      FlippedBeforeSome(b, side, X, Y, k - 1, x', y');
      if FlippedByDirection(b, side, X, Y, k - 1, x', y') {
        assert exists i | 0 <= i < k :: FlippedByDirection(b, side, X, Y, i, x', y');
      }
      if exists i | 0 <= i < k :: FlippedByDirection(b, side, X, Y, i, x', y') {
        var i :| 0 <= i < k && FlippedByDirection(b, side, X, Y, i, x', y');
        if i < k - 1 {
          assert exists i | 0 <= i < k - 1 :: FlippedByDirection(b, side, X, Y, i, x', y');
        }
      }
    }
  }

  /** Visiting the eight directions one by one finds exactly the flipped cells. */
  lemma FlippedBeforeAll(b: Board, side: Side, X: int, Y: int, x': int, y': int)
    ensures FlippedBefore(b, side, X, Y, 8, x', y') <==> Flipped(b, side, X, Y, x', y')
  {
    DirectionsWellFormed();
    FlippedBeforeSome(b, side, X, Y, 8, x', y');
    if Flipped(b, side, X, Y, x', y') {
      var d: Dir :| IsDir(d) && FlippedBy(b, side, X, Y, d, x', y');
      var i :| 0 <= i < 8 && Directions[i] == d;
      assert FlippedByDirection(b, side, X, Y, i, x', y');
    }
    if FlippedBefore(b, side, X, Y, 8, x', y') {
      var i :| 0 <= i < 8 && FlippedByDirection(b, side, X, Y, i, x', y');
      assert FlippedBy(b, side, X, Y, Directions[i], x', y');
    }
  }

  // ---------------------------------------------------------------------------
  // Rays in closed form.

  /** `k` steps of size `c`, for `c` in {-1, 0, 1}. */
  function Offset(k: int, c: int): int {
    if c > 0 then k else if c < 0 then -k else 0
  }

  /** The coordinates `k` steps from `(x, y)` along `d`. */
  function RayX(x: int, d: Dir, k: int): int { x + Offset(k, d.dx) }
  function RayY(y: int, d: Dir, k: int): int { y + Offset(k, d.dy) }

  /** The number of steps from `(x, y)` to `(x', y')` along `d`, if it lies on that line. */
  function StepsTo(x: int, y: int, d: Dir, x': int, y': int): int {
    if d.dx != 0 then Offset(x' - x, d.dx) else Offset(y' - y, d.dy)
  }

  /** `(x', y')` lies on the ray from `(x, y)` along `d`, `(x, y)` included. */
  predicate OnRay(x: int, y: int, d: Dir, x': int, y': int) {
    var k := StepsTo(x, y, d, x', y');
    k >= 0 && x' == RayX(x, d, k) && y' == RayY(y, d, k)
  }

  lemma OnRayStep(x: int, y: int, d: Dir, x': int, y': int)
    requires IsDir(d)
    ensures OnRay(x, y, d, x, y)
    ensures OnRay(x + d.dx, y + d.dy, d, x', y') ==> OnRay(x, y, d, x', y')
    ensures !OnRay(x + d.dx, y + d.dy, d, x, y)
  {
  }

  lemma {:induction false} SegmentOnRay(x: int, y: int, d: Dir, x': int, y': int, n: int)
    requires IsDir(d) && OnSegment(x, y, d, x', y', n)
    ensures OnRay(x, y, d, x', y')
    decreases n
  {
    OnRayStep(x, y, d, x', y');
    if (x', y') != (x, y) {
      SegmentOnRay(x + d.dx, y + d.dy, d, x', y', n - 1);
    }
  }

  /** Rays leaving `(X, Y)` in two different directions share no cell. */
  lemma RaysDisjoint(X: int, Y: int, d1: Dir, d2: Dir, x': int, y': int)
    requires IsDir(d1) && IsDir(d2)
    requires OnRay(X + d1.dx, Y + d1.dy, d1, x', y') && OnRay(X + d2.dx, Y + d2.dy, d2, x', y')
    ensures d1 == d2
  {
  }

  // ---------------------------------------------------------------------------
  // Frames: a walk reads only the cells along its ray.

  /** `b1` and `b2` agree on every on-board cell of the walk from `(x, y)` along `d`. */
  predicate AgreeAlong(b1: Board, b2: Board, x: int, y: int, d: Dir)
    requires IsDir(d)
    decreases Reach(x, y, d)
  {
    OnBoard(x, y) ==> At(b1, x, y) == At(b2, x, y) && AgreeAlong(b1, b2, x + d.dx, y + d.dy, d)
  }

  lemma {:induction false} AgreeOffRay(b1: Board, b2: Board, x: int, y: int, d: Dir)
    requires IsDir(d)
    requires forall x', y' | OnBoard(x', y') && OnRay(x, y, d, x', y') :: At(b1, x', y') == At(b2, x', y')
    ensures AgreeAlong(b1, b2, x, y, d)
    decreases Reach(x, y, d)
  {
    if OnBoard(x, y) {
      OnRayStep(x, y, d, x, y);
      forall x', y' | OnBoard(x', y') && OnRay(x + d.dx, y + d.dy, d, x', y')
        ensures At(b1, x', y') == At(b2, x', y')
      {
        OnRayStep(x, y, d, x', y');
      }
      AgreeOffRay(b1, b2, x + d.dx, y + d.dy, d);
    }
  }

  lemma {:induction false} WalkFrame(b1: Board, b2: Board, side: Side, x: int, y: int, d: Dir)
    requires IsDir(d) && AgreeAlong(b1, b2, x, y, d)
    ensures Walk(b1, side, x, y, d) == Walk(b2, side, x, y, d)
    ensures var w := Walk(b1, side, x, y, d);
      OnBoard(w.x, w.y) ==> At(b1, w.x, w.y) == At(b2, w.x, w.y)
    decreases Reach(x, y, d)
  {
    assert Holds(b1, side, x, y) <==> Holds(b2, side, x, y);
    if Holds(b1, side, x, y) {
      WalkFrame(b1, b2, side, x + d.dx, y + d.dy, d);
    }
  }

  /** A direction's capture test reads only the ray beyond the target. */
  lemma CapturesFrame(b1: Board, b2: Board, side: Side, X: int, Y: int, d: Dir)
    requires IsDir(d) && AgreeAlong(b1, b2, X + d.dx, Y + d.dy, d)
    ensures Walk(b1, Opponent(side), X + d.dx, Y + d.dy, d) == Walk(b2, Opponent(side), X + d.dx, Y + d.dy, d)
    ensures Captures(b1, side, X, Y, d) == Captures(b2, side, X, Y, d)
  {
    WalkFrame(b1, b2, Opponent(side), X + d.dx, Y + d.dy, d);
  }

  // ---------------------------------------------------------------------------
  // The capture rule as a bracket condition.

  /** The cell `k` steps from `(x, y)` along `d`. */
  function Step(x: int, y: int, d: Dir, k: nat): Pos
    decreases k
  {
    if k == 0 then Pos(x, y) else Step(x + d.dx, y + d.dy, d, k - 1)
  }

  predicate HoldsAt(b: Board, side: Side, p: Pos) {
    Holds(b, side, p.x, p.y)
  }

  /** The walk stops `count` steps out. */
  lemma WalkEnd(b: Board, side: Side, x: int, y: int, d: Dir)
    requires IsDir(d)
    ensures var w := Walk(b, side, x, y, d); Step(x, y, d, w.count) == Pos(w.x, w.y)
  {
    WalkEndFrom(b, side, x, y, d, Walk(b, side, x, y, d));
  }

  lemma {:induction false} WalkEndFrom(b: Board, side: Side, x: int, y: int, d: Dir, w: Stop)
    requires IsDir(d) && w == Walk(b, side, x, y, d)
    ensures Step(x, y, d, w.count) == Pos(w.x, w.y)
    decreases w.count
  {
    if Holds(b, side, x, y) {
      var w' := Walk(b, side, x + d.dx, y + d.dy, d);
      assert w == Stop(w'.count + 1, w'.x, w'.y);
      WalkEndFrom(b, side, x + d.dx, y + d.dy, d, w');
      assert Step(x, y, d, w.count) == Step(x + d.dx, y + d.dy, d, w'.count);
    } else {
      assert w == Stop(0, x, y);
    }
  }


  /** Every cell the walk passes holds the walked side. */
  lemma WalkPasses(b: Board, side: Side, x: int, y: int, d: Dir, j: nat)
    requires IsDir(d) && j < Walk(b, side, x, y, d).count
    ensures HoldsAt(b, side, Step(x, y, d, j))
  {
    WalkPassesFrom(b, side, x, y, d, Walk(b, side, x, y, d), j);
  }

  lemma {:induction false} WalkPassesFrom(b: Board, side: Side, x: int, y: int, d: Dir, w: Stop, j: nat)
    requires IsDir(d) && w == Walk(b, side, x, y, d) && j < w.count
    ensures HoldsAt(b, side, Step(x, y, d, j))
    decreases j
  {
    if j > 0 {
      var w' := Walk(b, side, x + d.dx, y + d.dy, d);
      assert w == Stop(w'.count + 1, w'.x, w'.y);
      WalkPassesFrom(b, side, x + d.dx, y + d.dy, d, w', j - 1);
      StepUnfold(x, y, d, j);
    } else {
      assert Step(x, y, d, 0) == Pos(x, y);
    }
  }

  lemma StepUnfold(x: int, y: int, d: Dir, k: nat)
    requires k > 0
    ensures Step(x, y, d, k) == Step(x + d.dx, y + d.dy, d, k - 1)
  {
  }

  /** Any `n` held cells followed by one not held are exactly the walk. */
  lemma WalkOfRun(b: Board, side: Side, x: int, y: int, d: Dir, n: nat)
    requires IsDir(d)
    requires forall j: nat | j < n :: HoldsAt(b, side, Step(x, y, d, j))
    requires !HoldsAt(b, side, Step(x, y, d, n))
    ensures Walk(b, side, x, y, d).count == n
  {
    var w := Walk(b, side, x, y, d);
    WalkEnd(b, side, x, y, d);
    assert !HoldsAt(b, side, Step(x, y, d, w.count));
    if w.count > n {
      WalkPasses(b, side, x, y, d, n);
      assert false;
    }
  }

  /** The bracket rule: opponent stones on the cells `1 .. n` steps out,
      for some `n >= 1`, and a stone of `side` at step `n + 1`. */
  predicate Brackets(b: Board, side: Side, X: int, Y: int, d: Dir, n: nat) {
    && n >= 1
    && (forall k: nat | 1 <= k <= n :: HoldsAt(b, Opponent(side), Step(X, Y, d, k)))
    && HoldsAt(b, side, Step(X, Y, d, n + 1))
  }

  /** The walk of `checkMove` decides exactly the bracket rule. */
  lemma CapturesIffBrackets(b: Board, side: Side, X: int, Y: int, d: Dir)
    requires IsDir(d)
    ensures Captures(b, side, X, Y, d) <==> exists n: nat :: Brackets(b, side, X, Y, d, n)
  {
    if Captures(b, side, X, Y, d) {
      CapturesBrackets(b, side, X, Y, d);
    }
    if exists n: nat :: Brackets(b, side, X, Y, d, n) {
      var n: nat :| Brackets(b, side, X, Y, d, n);
      BracketsCaptures(b, side, X, Y, d, n);
    }
  }

  lemma CapturesBrackets(b: Board, side: Side, X: int, Y: int, d: Dir)
    requires IsDir(d) && Captures(b, side, X, Y, d)
    ensures Brackets(b, side, X, Y, d, Walk(b, Opponent(side), X + d.dx, Y + d.dy, d).count)
  {
    var o := Opponent(side);
    var x1, y1 := X + d.dx, Y + d.dy;
    var w := Walk(b, o, x1, y1, d);
    WalkEnd(b, o, x1, y1, d);
    StepUnfold(X, Y, d, w.count + 1);
    forall k: nat | 1 <= k <= w.count
      ensures HoldsAt(b, o, Step(X, Y, d, k))
    {
      WalkPasses(b, o, x1, y1, d, k - 1);
      StepUnfold(X, Y, d, k);
    }
  }

  lemma BracketsCaptures(b: Board, side: Side, X: int, Y: int, d: Dir, n: nat)
    requires IsDir(d) && Brackets(b, side, X, Y, d, n)
    ensures Captures(b, side, X, Y, d)
  {
    var x1, y1 := X + d.dx, Y + d.dy;
    BracketsWalk(b, side, X, Y, d, n);
    assert Step(x1, y1, d, n) == Step(X, Y, d, n + 1);
    WalkEnd(b, Opponent(side), x1, y1, d);
  }

  /** A bracketed run is exactly as long as the walk of `checkMove` over it. */
  lemma BracketsWalk(b: Board, side: Side, X: int, Y: int, d: Dir, n: nat)
    requires IsDir(d) && Brackets(b, side, X, Y, d, n)
    ensures Walk(b, Opponent(side), X + d.dx, Y + d.dy, d).count == n
  {
    var o := Opponent(side);
    var x1, y1 := X + d.dx, Y + d.dy;
    forall j: nat | j < n
      ensures HoldsAt(b, o, Step(x1, y1, d, j))
    {
      assert Step(X, Y, d, j + 1) == Step(x1, y1, d, j);
    }
    var e := Step(x1, y1, d, n);
    assert e == Step(X, Y, d, n + 1);
    assert !HoldsAt(b, o, e) by {
      CellCases(At(b, e.x, e.y));
    }
    WalkOfRun(b, o, x1, y1, d, n);
  }

  /** A cell on the first `n` cells of a walk is some step `j < n` of it. */
  lemma {:induction false} SegmentIndex(x: int, y: int, d: Dir, x': int, y': int, n: int) returns (j: nat)
    requires OnSegment(x, y, d, x', y', n)
    ensures j < n && Step(x, y, d, j) == Pos(x', y')
    decreases n
  {
    if (x', y') == (x, y) {
      j := 0;
    } else {
      var i := SegmentIndex(x + d.dx, y + d.dy, d, x', y', n - 1);
      j := i + 1;
      StepUnfold(x, y, d, j);
    }
  }

  /** Step `j < n` of a walk is on its first `n` cells. */
  lemma {:induction false} IndexSegment(x: int, y: int, d: Dir, x': int, y': int, n: int, j: nat)
    requires j < n && Step(x, y, d, j) == Pos(x', y')
    ensures OnSegment(x, y, d, x', y', n)
    decreases j
  {
    if j > 0 {
      StepUnfold(x, y, d, j);
      IndexSegment(x + d.dx, y + d.dy, d, x', y', n - 1, j - 1);
    }
  }

  /** The textbook description of a flip: `(x', y')` is one of the cells
      `1 .. n` steps out of a run that `Brackets` in some direction. */
  ghost predicate Bracketed(b: Board, side: Side, X: int, Y: int, x': int, y': int) {
    exists d: Dir, n: nat, k: nat | IsDir(d) && Brackets(b, side, X, Y, d, n) ::
      1 <= k <= n && Step(X, Y, d, k) == Pos(x', y')
  }

  /** The cells `doMove` flips, described through its walk, are exactly the
      cells inside bracketed runs. */
  lemma FlippedIffBracketed(b: Board, side: Side, X: int, Y: int, x': int, y': int)
    ensures Flipped(b, side, X, Y, x', y') <==> Bracketed(b, side, X, Y, x', y')
  {
    if Flipped(b, side, X, Y, x', y') {
      FlippedBracketed(b, side, X, Y, x', y');
    }
    if Bracketed(b, side, X, Y, x', y') {
      BracketedFlipped(b, side, X, Y, x', y');
    }
  }

  lemma FlippedBracketed(b: Board, side: Side, X: int, Y: int, x': int, y': int)
    requires Flipped(b, side, X, Y, x', y')
    ensures Bracketed(b, side, X, Y, x', y')
  {
    var d: Dir :| IsDir(d) && FlippedBy(b, side, X, Y, d, x', y');
    var n := Walk(b, Opponent(side), X + d.dx, Y + d.dy, d).count;
    CapturesBrackets(b, side, X, Y, d);
    var j := SegmentIndex(X + d.dx, Y + d.dy, d, x', y', n);
    StepUnfold(X, Y, d, j + 1);
    assert Brackets(b, side, X, Y, d, n) && 1 <= j + 1 <= n && Step(X, Y, d, j + 1) == Pos(x', y');
  }

  lemma BracketedFlipped(b: Board, side: Side, X: int, Y: int, x': int, y': int)
    requires Bracketed(b, side, X, Y, x', y')
    ensures Flipped(b, side, X, Y, x', y')
  {
    var d: Dir, n: nat, k: nat :| IsDir(d) && Brackets(b, side, X, Y, d, n) && 1 <= k <= n && Step(X, Y, d, k) == Pos(x', y');
    BracketsCaptures(b, side, X, Y, d, n);
    BracketsWalk(b, side, X, Y, d, n);
    StepUnfold(X, Y, d, k);
    IndexSegment(X + d.dx, Y + d.dy, d, x', y', n, k - 1);
    assert FlippedBy(b, side, X, Y, d, x', y');
  }

  // ---------------------------------------------------------------------------
  // Flipping.

  /** Every cell of a walk's segment holds the walked side. */
  lemma {:induction false} SegmentHeld(b: Board, side: Side, x: int, y: int, d: Dir, x': int, y': int)
    requires IsDir(d) && OnSegment(x, y, d, x', y', Walk(b, side, x, y, d).count)
    ensures Holds(b, side, x', y')
    decreases Reach(x, y, d)
  {
    assert Holds(b, side, x, y);
    if (x', y') != (x, y) {
      var w := Walk(b, side, x + d.dx, y + d.dy, d);
      assert Walk(b, side, x, y, d).count == w.count + 1;
      assert OnSegment(x + d.dx, y + d.dy, d, x', y', w.count);
      SegmentHeld(b, side, x + d.dx, y + d.dy, d, x', y');
    }
  }

  /** `FlipRun` turns exactly the opponent run starting at `(x, y)`. */
  lemma FlipRunSpec(b: Board, side: Side, x: int, y: int, d: Dir, x': int, y': int)
    requires IsDir(d) && OnBoard(x', y')
    ensures At(FlipRun(b, side, x, y, d), x', y') ==
            if OnSegment(x, y, d, x', y', Walk(b, Opponent(side), x, y, d).count) then Stone(side) else At(b, x', y')
  {
    var n := Walk(b, Opponent(side), x, y, d).count;
    FlipRunCounted(b, side, x, y, d, n, x', y');
    forall j: nat | j < n
      ensures OnBoard(Step(x, y, d, j).x, Step(x, y, d, j).y)
    {
      WalkPasses(b, Opponent(side), x, y, d, j);
    }
    FlipCountSpec(b, side, x, y, d, n, x', y');
  }

  /** `n` cells from `(x, y)` along `d` set to `side`, stopping early off the board. */
  function FlipCount(b: Board, side: Side, x: int, y: int, d: Dir, n: nat): Board
    decreases n
  {
    if n == 0 || !OnBoard(x, y) then b
    else FlipCount(Set(b, side, x, y), side, x + d.dx, y + d.dy, d, n - 1)
  }

  /** The run of `doMove` sets as many cells as the walk passes. */
  lemma {:induction false} FlipRunCounted(b: Board, side: Side, x: int, y: int, d: Dir, n: nat, x': int, y': int)
    requires IsDir(d) && OnBoard(x', y') && n == Walk(b, Opponent(side), x, y, d).count
    ensures At(FlipRun(b, side, x, y, d), x', y') == At(FlipCount(b, side, x, y, d, n), x', y')
    decreases n
  {
    if Holds(b, Opponent(side), x, y) {
      var m := WalkStep(b, Opponent(side), x, y, d);
      SetKeepsWalk(b, side, x, y, d);
      FlipUnfold(b, side, x, y, d, m);
      FlipRunCounted(Set(b, side, x, y), side, x + d.dx, y + d.dy, d, m, x', y');
    } else {
      FlipStop(b, side, x, y, d);
    }
  }


  /** A run that starts off the opponent's stones sets nothing. */
  lemma FlipStop(b: Board, side: Side, x: int, y: int, d: Dir)
    requires IsDir(d) && !Holds(b, Opponent(side), x, y)
    ensures Walk(b, Opponent(side), x, y, d).count == 0
    ensures FlipRun(b, side, x, y, d) == b && FlipCount(b, side, x, y, d, 0) == b
  {
  }

  /** One step of a walk: it passes `(x, y)` and continues from the next cell. */
  lemma WalkStep(b: Board, side: Side, x: int, y: int, d: Dir) returns (n: nat)
    requires IsDir(d) && Holds(b, side, x, y)
    ensures n == Walk(b, side, x + d.dx, y + d.dy, d).count && n + 1 == Walk(b, side, x, y, d).count
  {
    n := Walk(b, side, x + d.dx, y + d.dy, d).count;
  }

  /** One step of the run: the cell is set and the run goes on from the next cell. */
  lemma FlipUnfold(b: Board, side: Side, x: int, y: int, d: Dir, n: nat)
    requires IsDir(d) && Holds(b, Opponent(side), x, y)
    ensures FlipRun(b, side, x, y, d) == FlipRun(Set(b, side, x, y), side, x + d.dx, y + d.dy, d)
    ensures FlipCount(b, side, x, y, d, n + 1) == FlipCount(Set(b, side, x, y), side, x + d.dx, y + d.dy, d, n)
  {
  }


  /** Setting `n` on-board cells along a ray sets exactly the segment they form. */
  lemma {:induction false} FlipCountSpec(b: Board, side: Side, x: int, y: int, d: Dir, n: nat, x': int, y': int)
    requires OnBoard(x', y')
    requires forall j: nat | j < n :: OnBoard(Step(x, y, d, j).x, Step(x, y, d, j).y)
    ensures At(FlipCount(b, side, x, y, d, n), x', y') ==
            if OnSegment(x, y, d, x', y', n) then Stone(side) else At(b, x', y')
    decreases n
  {
    if n > 0 {
      assert Step(x, y, d, 0) == Pos(x, y);
      var b' := Set(b, side, x, y);
      var x1, y1 := x + d.dx, y + d.dy;
      forall j: nat | j < n - 1
        ensures OnBoard(Step(x1, y1, d, j).x, Step(x1, y1, d, j).y)
      {
        assert Step(x1, y1, d, j) == Step(x, y, d, j + 1);
      }
      FlipCountSpec(b', side, x1, y1, d, n - 1, x', y');
      if (x', y') == (x, y) {
        assert At(b', x, y) == Stone(side);
      } else {
        assert At(b', x', y') == At(b, x', y');
      }
    }
  }

  /** Setting the start of a ray leaves the walk from the next cell alone. */
  lemma SetKeepsWalk(b: Board, side: Side, x: int, y: int, d: Dir)
    requires IsDir(d) && OnBoard(x, y)
    ensures var x1, y1 := x + d.dx, y + d.dy;
      Walk(Set(b, side, x, y), Opponent(side), x1, y1, d) == Walk(b, Opponent(side), x1, y1, d)
  {
    var b' := Set(b, side, x, y);
    var x1, y1 := x + d.dx, y + d.dy;
    forall u, v | OnBoard(u, v) && OnRay(x1, y1, d, u, v)
      ensures At(b', u, v) == At(b, u, v)
    {
      OnRayStep(x, y, d, u, v);
    }
    AgreeOffRay(b', b, x1, y1, d);
    WalkFrame(b', b, Opponent(side), x1, y1, d);
  }

  /** One direction of `doMove` flips exactly the cells `FlippedBy` names. */
  lemma FlipDirSpec(b: Board, side: Side, X: int, Y: int, d: Dir, x': int, y': int)
    requires IsDir(d) && OnBoard(x', y')
    ensures At(FlipDir(b, side, X, Y, d), x', y') ==
            if FlippedBy(b, side, X, Y, d, x', y') then Stone(side) else At(b, x', y')
  {
    FlipRunSpec(b, side, X + d.dx, Y + d.dy, d, x', y');
  }

  /** Flips made in other directions leave the ray of direction `k` alone. */
  lemma OtherDirectionsAgree(b: Board, side: Side, X: int, Y: int, k: int, d: Dir, B: Board)
    requires 0 <= k < 8 && d == Directions[k]
    requires forall x', y' | OnBoard(x', y') ::
      At(B, x', y') == if FlippedBefore(b, side, X, Y, k, x', y') then Stone(side) else At(b, x', y')
    ensures AgreeAlong(B, b, X + d.dx, Y + d.dy, d)
  {
    DirectionIsDir(k);
    forall x', y' | OnBoard(x', y') && OnRay(X + d.dx, Y + d.dy, d, x', y')
      ensures At(B, x', y') == At(b, x', y')
    {
      NotFlippedBefore(b, side, X, Y, k, k, x', y');
      assert !FlippedBefore(b, side, X, Y, k, x', y');
    }
    AgreeOffRay(B, b, X + d.dx, Y + d.dy, d);
  }

  /** A cell on the ray of direction `k` is not flipped by an earlier direction. */
  lemma {:induction false} NotFlippedBefore(b: Board, side: Side, X: int, Y: int, j: int, k: int, x': int, y': int)
    requires 0 <= j <= k < 8
    requires OnRay(X + Directions[k].dx, Y + Directions[k].dy, Directions[k], x', y')
    ensures !FlippedBefore(b, side, X, Y, j, x', y')
  {
    if j > 0 {
      NotFlippedBefore(b, side, X, Y, j - 1, k, x', y');
      NotFlippedByOther(b, side, X, Y, j - 1, k, x', y');
    }
  }

  lemma NotFlippedByOther(b: Board, side: Side, X: int, Y: int, i: int, k: int, x': int, y': int)
    requires 0 <= i < k < 8
    requires OnRay(X + Directions[k].dx, Y + Directions[k].dy, Directions[k], x', y')
    ensures !FlippedByDirection(b, side, X, Y, i, x', y')
  {
    if FlippedByDirection(b, side, X, Y, i, x', y') {
      var e := Directions[i];
      SegmentOnRay(X + e.dx, Y + e.dy, e, x', y', Walk(b, Opponent(side), X + e.dx, Y + e.dy, e).count);
      RaysDisjoint(X, Y, e, Directions[k], x', y');
      DirectionsDistinct(i, k);
      assert false;
    }
  }

  lemma DirectionsDistinct(i: int, k: int)
    requires 0 <= i < k < 8
    ensures Directions[i] != Directions[k]
  {
  }

  /** board.cpp's direction-by-direction flipping equals flipping all
      bracketed runs at once. */
  lemma {:induction false} FlipAllSpec(b: Board, side: Side, X: int, Y: int, k: int)
    requires 0 <= k <= 8
    ensures forall x', y' | OnBoard(x', y') ::
      At(FlipAll(b, side, X, Y, k), x', y') ==
        if FlippedBefore(b, side, X, Y, k, x', y') then Stone(side) else At(b, x', y')
  {
    if k > 0 {
      FlipAllSpec(b, side, X, Y, k - 1);
      var B := FlipAll(b, side, X, Y, k - 1);
      var d := Directions[k - 1];
      DirectionIsDir(k - 1);
      OtherDirectionsAgree(b, side, X, Y, k - 1, d, B);
      forall x', y' | OnBoard(x', y')
        ensures At(FlipAll(b, side, X, Y, k), x', y') ==
          if FlippedBefore(b, side, X, Y, k, x', y') then Stone(side) else At(b, x', y')
      {
        FlipDirOnAgreeing(b, B, side, X, Y, d, x', y');
        assert FlippedByDirection(b, side, X, Y, k - 1, x', y') == FlippedBy(b, side, X, Y, d, x', y');
      }
    }
  }

  /** A direction applied to a board that agrees with `b` along its ray
      flips what it would have flipped on `b`. */
  lemma FlipDirOnAgreeing(b: Board, B: Board, side: Side, X: int, Y: int, d: Dir, x': int, y': int)
    requires IsDir(d) && OnBoard(x', y') && AgreeAlong(B, b, X + d.dx, Y + d.dy, d)
    ensures At(FlipDir(B, side, X, Y, d), x', y') ==
      if FlippedBy(b, side, X, Y, d, x', y') then Stone(side) else At(B, x', y')
  {
    CapturesFrame(B, b, side, X, Y, d);
    FlipDirSpec(B, side, X, Y, d, x', y');
  }

  /** A flipped cell held an opponent stone and is not the target. */
  lemma FlippedIsOpponent(b: Board, side: Side, X: int, Y: int, x': int, y': int)
    requires Flipped(b, side, X, Y, x', y')
    ensures OnBoard(x', y') && Get(b, Opponent(side), x', y')
    ensures (x', y') != (X, Y)
  {
    var d: Dir :| IsDir(d) && FlippedBy(b, side, X, Y, d, x', y');
    var n := Walk(b, Opponent(side), X + d.dx, Y + d.dy, d).count;
    SegmentHeld(b, Opponent(side), X + d.dx, Y + d.dy, d, x', y');
    SegmentOnRay(X + d.dx, Y + d.dy, d, x', y', n);
    OnRayStep(X, Y, d, x', y');
  }

  /** The effect of a legal move, cell by cell: the target becomes
      `side`'s, every flipped cell becomes `side`'s, nothing else changes. */
  lemma DoMoveSpec(b: Board, p: Pos, side: Side)
    requires OnBoard(p.x, p.y) && LegalAt(b, side, p)
    ensures At(DoMove(b, Some(p), side), p.x, p.y) == Stone(side)
    ensures forall x', y' | OnBoard(x', y') && (x', y') != (p.x, p.y) ::
      At(DoMove(b, Some(p), side), x', y') ==
        if Flipped(b, side, p.x, p.y, x', y') then Stone(side) else At(b, x', y')
  {
    var B := FlipAll(b, side, p.x, p.y, 8);
    assert DoMove(b, Some(p), side) == Set(B, side, p.x, p.y);
    FlipAllSpec(b, side, p.x, p.y, 8);
    forall x', y' | OnBoard(x', y') && (x', y') != (p.x, p.y)
      ensures At(DoMove(b, Some(p), side), x', y') ==
        if Flipped(b, side, p.x, p.y, x', y') then Stone(side) else At(b, x', y')
    {
      FlippedBeforeAll(b, side, p.x, p.y, x', y');
      SetFrame(B, side, p.x, p.y, x', y');
    }
  }

  // ---------------------------------------------------------------------------
  // Legality.

  /** A concrete move is legal iff its target is free and it flips at least one stone. */
  lemma LegalIffFlips(b: Board, side: Side, p: Pos)
    requires OnBoard(p.x, p.y)
    ensures LegalAt(b, side, p) <==>
            !Occupied(b, p.x, p.y) && exists x', y' | OnBoard(x', y') :: Flipped(b, side, p.x, p.y, x', y')
  {
    if LegalAt(b, side, p) {
      LegalFlips(b, side, p);
    }
    if !Occupied(b, p.x, p.y) && exists x', y' | OnBoard(x', y') :: Flipped(b, side, p.x, p.y, x', y') {
      var x', y' :| OnBoard(x', y') && Flipped(b, side, p.x, p.y, x', y');
      FlipsLegal(b, side, p, x', y');
    }
  }

  /** A capturing direction flips the cell next to the move. */
  lemma LegalFlips(b: Board, side: Side, p: Pos)
    requires LegalAt(b, side, p)
    ensures exists x', y' | OnBoard(x', y') :: Flipped(b, side, p.x, p.y, x', y')
  {
    var i :| 0 <= i < 8 && Captures(b, side, p.x, p.y, Directions[i]);
    DirectionsWellFormed();
    var d := Directions[i];
    CapturesFlipsNext(b, side, p.x, p.y, d);
  }

  /** A capturing direction flips its first cell, which is on the board. */
  lemma CapturesFlipsNext(b: Board, side: Side, X: int, Y: int, d: Dir)
    requires IsDir(d) && Captures(b, side, X, Y, d)
    ensures OnBoard(X + d.dx, Y + d.dy) && Flipped(b, side, X, Y, X + d.dx, Y + d.dy)
  {
    assert FlippedBy(b, side, X, Y, d, X + d.dx, Y + d.dy);
  }


  /** A flipped cell shows some direction captures. */
  lemma FlipsLegal(b: Board, side: Side, p: Pos, x': int, y': int)
    requires OnBoard(p.x, p.y) && !Occupied(b, p.x, p.y) && Flipped(b, side, p.x, p.y, x', y')
    ensures LegalAt(b, side, p)
  {
    var d: Dir :| IsDir(d) && FlippedBy(b, side, p.x, p.y, d, x', y');
    DirectionsWellFormed();
    var i :| 0 <= i < 8 && Directions[i] == d;
    assert Captures(b, side, p.x, p.y, Directions[i]);
  }


  /** An occupied target is never legal. */
  lemma OccupiedIllegal(b: Board, side: Side, p: Pos)
    requires OnBoard(p.x, p.y) && Occupied(b, p.x, p.y)
    ensures !CheckMove(b, Some(p), side)
  {
  }

  /** A pass is legal iff `side` has no concrete move. */
  lemma PassIffNoMoves(b: Board, side: Side)
    ensures CheckMove(b, None, side) <==> forall x, y | OnBoard(x, y) :: !LegalAt(b, side, Pos(x, y))
  {
    HasMovesIff(b, side);
  }

  /** `isDone()` holds iff neither side has a concrete move, that is iff both must pass. */
  lemma IsDoneIff(b: Board)
    ensures IsDone(b) <==> forall s: Side, x, y | OnBoard(x, y) :: !LegalAt(b, s, Pos(x, y))
    ensures IsDone(b) <==> CheckMove(b, None, Black) && CheckMove(b, None, White)
  {
    HasMovesIff(b, Black);
    HasMovesIff(b, White);
    if !IsDone(b) {
      if HasMoves(b, Black) {
        var x, y :| OnBoard(x, y) && LegalAt(b, Black, Pos(x, y));
      } else {
        var x, y :| OnBoard(x, y) && LegalAt(b, White, Pos(x, y));
      }
    }
  }

  /** A full board has no move for either side, so the game is over. */
  lemma FullBoardIsDone(b: Board)
    requires Stones(b) == 64
    ensures IsDone(b)
  {
    forall s: Side, x, y | OnBoard(x, y)
      ensures !LegalAt(b, s, Pos(x, y))
    {
      FullBoardOccupied(b, x, y);
    }
    IsDoneIff(b);
  }

  lemma FullBoardOccupied(b: Board, x: int, y: int)
    requires Stones(b) == 64 && OnBoard(x, y)
    ensures Occupied(b, x, y)
  {
    EmptyCellBound(b, x, y);
  }

  // ---------------------------------------------------------------------------
  // Consequences for `doMove`.

  /** A pass, or a move `checkMove` rejects, leaves the board unchanged. */
  lemma DoMoveIgnored(b: Board, m: Move, side: Side)
    requires m.None? || !CheckMove(b, m, side)
    ensures DoMove(b, m, side) == b
  {
  }

  /** A legal move adds exactly one stone, claims the target, only ever turns
      opponent stones into `side`'s, fills no other empty cell, never loses
      one of `side`'s stones, and flips at least one. */
  lemma DoMoveLegal(b: Board, p: Pos, side: Side)
    requires CheckMove(b, Some(p), side)
    ensures Stones(DoMove(b, Some(p), side)) == Stones(b) + 1
    ensures Get(DoMove(b, Some(p), side), side, p.x, p.y)
    ensures forall x', y' | OnBoard(x', y') && (x', y') != (p.x, p.y) &&
      At(DoMove(b, Some(p), side), x', y') != At(b, x', y') ::
        Get(b, Opponent(side), x', y') && Get(DoMove(b, Some(p), side), side, x', y')
    ensures forall x', y' | OnBoard(x', y') && (x', y') != (p.x, p.y) && !Occupied(b, x', y') ::
      !Occupied(DoMove(b, Some(p), side), x', y')
    ensures forall x', y' | OnBoard(x', y') && Get(b, side, x', y') :: Get(DoMove(b, Some(p), side), side, x', y')
    ensures exists x', y' | OnBoard(x', y') ::
      Get(b, Opponent(side), x', y') && Get(DoMove(b, Some(p), side), side, x', y')
  {
    var r := DoMove(b, Some(p), side);
    forall x', y' | OnBoard(x', y') && (x', y') != (p.x, p.y)
      ensures At(r, x', y') != At(b, x', y') ==> Get(b, Opponent(side), x', y') && Get(r, side, x', y')
      ensures !Occupied(b, x', y') ==> !Occupied(r, x', y')
      ensures Get(b, side, x', y') ==> Get(r, side, x', y')
    {
      DoMoveCell(b, p, side, x', y');
    }
    LegalIffFlips(b, side, p);
    var fx, fy :| OnBoard(fx, fy) && Flipped(b, side, p.x, p.y, fx, fy);
    FlippedIsOpponent(b, side, p.x, p.y, fx, fy);
    DoMoveCell(b, p, side, fx, fy);
    DoMoveTaken(b, p, side);
  }

  /** One cell other than the target under a legal move: it changes only
      from an opponent stone to `side`'s. */
  lemma DoMoveCell(b: Board, p: Pos, side: Side, x': int, y': int)
    requires CheckMove(b, Some(p), side)
    requires OnBoard(x', y') && (x', y') != (p.x, p.y)
    ensures At(DoMove(b, Some(p), side), x', y') == if Flipped(b, side, p.x, p.y, x', y') then Stone(side) else At(b, x', y')
    ensures Flipped(b, side, p.x, p.y, x', y') ==> Get(b, Opponent(side), x', y')
  {
    DoMoveSpec(b, p, side);
    if Flipped(b, side, p.x, p.y, x', y') {
      FlippedIsOpponent(b, side, p.x, p.y, x', y');
    }
  }

  /** A legal move occupies its target and keeps every other cell's occupancy. */
  lemma DoMoveOccupies(b: Board, p: Pos, side: Side, x': int, y': int)
    requires CheckMove(b, Some(p), side) && OnBoard(x', y')
    ensures Occupied(DoMove(b, Some(p), side), x', y') <==> Occupied(b, x', y') || (x', y') == (p.x, p.y)
  {
    if (x', y') == (p.x, p.y) {
      DoMoveSpec(b, p, side);
    } else {
      DoMoveCell(b, p, side, x', y');
    }
  }

  /** A legal move adds its target, and only its target, to `taken`. */
  lemma DoMoveTaken(b: Board, p: Pos, side: Side)
    requires CheckMove(b, Some(p), side)
    ensures ToBits(DoMove(b, Some(p), side)).taken == ToBits(b).taken + {Index(p.x, p.y)}
    ensures Stones(DoMove(b, Some(p), side)) == Stones(b) + 1
  {
    var r := DoMove(b, Some(p), side);
    var t := Index(p.x, p.y);
    forall i | 0 <= i < 64
      ensures CellAt(r, i).Stone? <==> CellAt(b, i).Stone? || i == t
    {
      IndexOnto(i);
      IndexInjective(i % 8, i / 8, p.x, p.y);
      CellAtIndex(r, i % 8, i / 8);
      CellAtIndex(b, i % 8, i / 8);
      DoMoveOccupies(b, p, side, i % 8, i / 8);
    }
    OccupiedMatchesBits(b, p.x, p.y);
    assert t !in ToBits(b).taken;
  }

  /** The cells a legal move at `p` flips, as indices. */
  ghost function FlippedCells(b: Board, side: Side, p: Pos): set<int> {
    set i | 0 <= i < 64 && Flipped(b, side, p.x, p.y, i % 8, i / 8)
  }

  /** One index under a legal move: it becomes `side`'s iff it was already,
      is the target or is flipped, and stays the opponent's iff it was and
      is not flipped. */
  lemma DoMoveOwnedAt(b: Board, p: Pos, side: Side, i: int)
    requires CheckMove(b, Some(p), side) && 0 <= i < 64
    ensures CellAt(DoMove(b, Some(p), side), i) == Stone(side) <==>
            CellAt(b, i) == Stone(side) || i == Index(p.x, p.y) || i in FlippedCells(b, side, p)
    ensures CellAt(DoMove(b, Some(p), side), i) == Stone(Opponent(side)) <==>
            CellAt(b, i) == Stone(Opponent(side)) && i !in FlippedCells(b, side, p)
    ensures i in FlippedCells(b, side, p) ==> CellAt(b, i) == Stone(Opponent(side)) && i != Index(p.x, p.y)
  {
    var r := DoMove(b, Some(p), side);
    var x', y' := i % 8, i / 8;
    IndexOnto(i);
    IndexInjective(x', y', p.x, p.y);
    CellAtIndex(r, x', y');
    CellAtIndex(b, x', y');
    if (x', y') == (p.x, p.y) {
      DoMoveSpec(b, p, side);
      if Flipped(b, side, p.x, p.y, x', y') {
        FlippedIsOpponent(b, side, p.x, p.y, x', y');
      }
    } else {
      DoMoveCell(b, p, side, x', y');
    }
  }

  /** `side`'s stones after a legal move: its old ones, the target and the flipped cells. */
  lemma DoMoveGains(b: Board, p: Pos, side: Side)
    requires CheckMove(b, Some(p), side)
    ensures Owned(DoMove(b, Some(p), side), side) == Owned(b, side) + {Index(p.x, p.y)} + FlippedCells(b, side, p)
  {
    var gained := Owned(b, side) + {Index(p.x, p.y)} + FlippedCells(b, side, p);
    forall i
      ensures i in Owned(DoMove(b, Some(p), side), side) <==> i in gained
    {
      if 0 <= i < 64 {
        DoMoveOwnedAt(b, p, side, i);
      }
    }
  }

  /** The opponent's stones after a legal move: its old ones less the
      flipped cells, all of which were its own. */
  lemma DoMoveLoses(b: Board, p: Pos, side: Side)
    requires CheckMove(b, Some(p), side)
    ensures Owned(DoMove(b, Some(p), side), Opponent(side)) == Owned(b, Opponent(side)) - FlippedCells(b, side, p)
    ensures FlippedCells(b, side, p) <= Owned(b, Opponent(side))
  {
    forall i | 0 <= i < 64 {
      DoMoveOwnedAt(b, p, side, i);
    }
  }

  /** Moving one new element and a subset `F` of the other side's set into
      a set changes the two sizes by `1 + |F|` and `-|F|`. */
  lemma TransferSizes(mine: set<int>, theirs: set<int>, t: int, F: set<int>)
    requires mine * theirs == {} && t !in mine + theirs && F <= theirs
    ensures |mine + {t} + F| == |mine| + 1 + |F|
    ensures |theirs - F| == |theirs| - |F|
  {
    assert theirs == (theirs - F) + F;
    assert (mine + {t}) * F == {};
  }

  /** A legal move gains `side` the target and every flipped stone, and
      costs the opponent exactly the flipped stones, of which there is at
      least one. */
  lemma DoMoveCounts(b: Board, p: Pos, side: Side)
    requires CheckMove(b, Some(p), side)
    ensures |FlippedCells(b, side, p)| >= 1
    ensures Count(DoMove(b, Some(p), side), side) == Count(b, side) + 1 + |FlippedCells(b, side, p)|
    ensures Count(DoMove(b, Some(p), side), Opponent(side)) == Count(b, Opponent(side)) - |FlippedCells(b, side, p)|
  {
    var r := DoMove(b, Some(p), side);
    DoMoveGains(b, p, side);
    DoMoveLoses(b, p, side);
    CellAtIndex(b, p.x, p.y);
    assert Index(p.x, p.y) !in Owned(b, side) + Owned(b, Opponent(side));
    assert Owned(b, side) * Owned(b, Opponent(side)) == {};
    TransferSizes(Owned(b, side), Owned(b, Opponent(side)), Index(p.x, p.y), FlippedCells(b, side, p));
    LegalIffFlips(b, side, p);
    var fx, fy :| OnBoard(fx, fy) && Flipped(b, side, p.x, p.y, fx, fy);
    FlippedCellsHas(b, side, p, fx, fy);
    CountIsOwned(b);
    CountIsOwned(r);
  }

  lemma FlippedCellsHas(b: Board, side: Side, p: Pos, x: int, y: int)
    requires OnBoard(x, y) && Flipped(b, side, p.x, p.y, x, y)
    ensures Index(x, y) in FlippedCells(b, side, p)
  {
    IndexCoords(x, y);
  }
}
