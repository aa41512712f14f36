/**
 The player of player.cpp: it keeps its own board, applies the opponent's
 move, and picks its reply with a one-ply lookahead (`pickMove`). Each
 legal move is tried on a copy of the board; the opponent is assumed to
 answer with the move that leaves the player the fewest stones; the
 player keeps the move after which it has the most stones. Ties go to the
 move met first in the scan order (`x` outer, `y` inner), because both
 searches replace their best only on a strict improvement.

 The three loops of `pickMove` are written once, generically, over a test
 `ok` and a score `f`, and proved about in those terms; the player then
 instantiates them with legality and stone counts.
 */
module Players {
  import opened Common
  import opened Boards
  import opened Rules

  /** The player's state: its side, the opponent's side and its board. */
  datatype Player = Player(us: Side, them: Side, board: Board)

  /** The sides are as both constructors set them. */
  predicate Consistent(pl: Player) {
    pl.them == Opponent(pl.us)
  }

  /** `Player(side)`: a fresh board in the starting position. */
  function NewPlayer(side: Side): (pl: Player)
    ensures Consistent(pl) && pl.us == side
    ensures pl.board == Initial()
  {
    Player(side, Opponent(side), Initial())
  }

  /** `Player(side, b)`: plays on the board it is given. */
  function NewPlayerOn(side: Side, b: Board): (pl: Player)
    ensures Consistent(pl) && pl.us == side
    ensures pl.board == b
  {
    Player(side, Opponent(side), b)
  }

  /** `TINY_SCORE` and `HUGE_SCORE`, the starting values of the two
      searches. They are defined outside the files modelled here. */
  datatype Limits = Limits(tiny: int, huge: int)

  /** Limits below every stone count and above every stone count. */
  predicate Sound(lim: Limits) {
    lim.tiny < 0 && lim.huge > 64
  }

  // ---------------------------------------------------------------------------
  // The scans of `pickMove`, generically.

  /** An on-board cell that the scan reaches at step `k` or later. */
  predicate Scanned(p: Pos, k: int) {
    OnBoard(p.x, p.y) && k <= Rank(p)
  }

  /** Strictly increasing in scan order. */
  predicate InScanOrder(ms: seq<Pos>) {
    forall i, j | 0 <= i < j < |ms| :: Rank(ms[i]) < Rank(ms[j])
  }

  /** The cells `ok` accepts from step `k` of the scan on, in scan order. */
  function Filter(ok: Pos -> bool, k: int): seq<Pos>
    requires 0 <= k <= 64
    decreases 64 - k
  {
    if k == 64 then []
    else if ok(ScanPos(k)) then [ScanPos(k)] + Filter(ok, k + 1)
    else Filter(ok, k + 1)
  }

  /** No on-board cell lies past the last step. */
  lemma ScannedBelow()
    ensures forall p: Pos | OnBoard(p.x, p.y) :: 0 <= Rank(p) < 64
  {
    forall p: Pos | OnBoard(p.x, p.y)
      ensures 0 <= Rank(p) < 64
    {
      RankScanPos(p);
    }
  }

  /** `Filter` keeps exactly the accepted cells from step `k` on, each once
      and in scan order, and is empty iff no step from `k` on is accepted. */
  lemma FilterSpec(ok: Pos -> bool, k: int)
    requires 0 <= k <= 64
    ensures forall p :: p in Filter(ok, k) <==> ok(p) && Scanned(p, k)
    ensures InScanOrder(Filter(ok, k))
    ensures Filter(ok, k) == [] <==> forall j | k <= j < 64 :: !ok(ScanPos(j))
  {
    FilterMembers(ok, k);
    FilterOrdered(ok, k);
    FilterEmpty(ok, k);
  }

  lemma {:induction false} FilterMembers(ok: Pos -> bool, k: int)
    requires 0 <= k <= 64
    ensures forall p :: p in Filter(ok, k) <==> ok(p) && Scanned(p, k)
    decreases 64 - k
  {
    if k < 64 {
      FilterMembers(ok, k + 1);
      ScanPosRank(k);
      forall p
        ensures p in Filter(ok, k) <==> ok(p) && Scanned(p, k)
      {
        if Scanned(p, k) && Rank(p) == k {
          RankScanPos(p);
        }
      }
    } else {
      ScannedBelow();
    }
  }

  lemma {:induction false} FilterOrdered(ok: Pos -> bool, k: int)
    requires 0 <= k <= 64
    ensures InScanOrder(Filter(ok, k))
    decreases 64 - k
  {
    if k < 64 {
      var c, rest := ScanPos(k), Filter(ok, k + 1);
      FilterOrdered(ok, k + 1);
      if ok(c) {
        FilterMembers(ok, k + 1);
        ScanPosRank(k);
        forall q | q in rest
          ensures Rank(c) < Rank(q)
        {
          assert Scanned(q, k + 1);
        }
        ConsOrdered(c, rest);
        assert Filter(ok, k) == [c] + rest;
      } else {
        assert Filter(ok, k) == rest;
      }
    }
  }

  /** A cell ranked before every cell of an ordered sequence extends it in order. */
  lemma ConsOrdered(c: Pos, ms: seq<Pos>)
    requires InScanOrder(ms) && forall q | q in ms :: Rank(c) < Rank(q)
    ensures InScanOrder([c] + ms)
  {
    var cs := [c] + ms;
    forall i, j | 0 <= i < j < |cs|
      ensures Rank(cs[i]) < Rank(cs[j])
    {
      assert cs[j] == ms[j - 1] && ms[j - 1] in ms;
      if i > 0 {
        assert cs[i] == ms[i - 1];
      }
    }
  }

  lemma {:induction false} FilterEmpty(ok: Pos -> bool, k: int)
    requires 0 <= k <= 64
    ensures Filter(ok, k) == [] <==> forall j | k <= j < 64 :: !ok(ScanPos(j))
    decreases 64 - k
  {
    if k < 64 {
      FilterEmpty(ok, k + 1);
    }
  }

  /** When `p` is the only accepted cell, the scan finds exactly `p`. */
  lemma FilterOne(ok: Pos -> bool, p: Pos)
    requires ok(p) && OnBoard(p.x, p.y)
    requires forall q | ok(q) && OnBoard(q.x, q.y) :: q == p
    ensures Filter(ok, 0) == [p]
  {
    RankScanPos(p);
    FilterMembers(ok, 0);
    FilterOrdered(ok, 0);
    var ms := Filter(ok, 0);
    assert p in ms;
    var n := |ms| - 1;
    assert ms[0] in ms && ms[n] in ms;
    OrderedSpan(ms, n);
    assert ms[0] == p && ms[n] == p;
    assert n == 0;
  }

  /** In a sequence in scan order, each element ranks at least its distance above the first. */
  lemma {:induction false} OrderedSpan(ms: seq<Pos>, i: int)
    requires InScanOrder(ms) && 0 <= i < |ms|
    ensures Rank(ms[i]) >= Rank(ms[0]) + i
    decreases i
  {
    if i > 0 {
      OrderedSpan(ms, i - 1);
      assert Rank(ms[i - 1]) < Rank(ms[i]);
    }
  }

  /** The best value found so far by a search, with the move that gave it. */
  datatype Best<T> = Best(score: int, move: T)

  /** One step of the minimum search: an accepted cell scoring below
      `best.score` becomes the new best. The step never raises the best
      score, leaves it no higher than an accepted cell's score, and changes
      the best only to the cell itself, on a strictly lower score. */
  function MinStep(ok: Pos -> bool, f: Pos -> int, q: Pos, best: Best<Move>): (r: Best<Move>)
    ensures r.score <= best.score
    ensures ok(q) ==> r.score <= f(q)
    ensures r != best ==> ok(q) && r.score == f(q) < best.score && r.move == Some(q)
  {
    if ok(q) && f(q) < best.score then Best(f(q), Some(q)) else best
  }

  /** A minimum search over the scan from step `k`. */
  function MinScan(ok: Pos -> bool, f: Pos -> int, k: int, best: Best<Move>): Best<Move>
    requires 0 <= k <= 64
    decreases 64 - k
  {
    if k == 64 then best
    else MinScan(ok, f, k + 1, MinStep(ok, f, ScanPos(k), best))
  }

  /** The search keeps `best` unless it finds a lower score; what it finds
      is an accepted cell scoring no more than any other accepted cell from
      step `k` on, and strictly less than every earlier one. */
  lemma MinScanSpec(ok: Pos -> bool, f: Pos -> int, k: int, best: Best<Move>)
    requires 0 <= k <= 64
    ensures var r := MinScan(ok, f, k, best);
      && r.score <= best.score
      && (r.score == best.score ==> r.move == best.move)
      && (forall q | ok(q) && Scanned(q, k) :: f(q) >= r.score)
      && (r.score < best.score ==>
            && r.move.Some? && ok(r.move.value) && Scanned(r.move.value, k)
            && f(r.move.value) == r.score
            && (forall q | ok(q) && Scanned(q, k) && Rank(q) < Rank(r.move.value) :: f(q) > r.score))
  {
    MinScanKeeps(ok, f, k, best);
    MinScanBound(ok, f, k, best);
    MinScanFound(ok, f, k, best);
  }

  /** The search never ends above `best`, and ends level with it only by keeping it. */
  lemma {:induction false} MinScanKeeps(ok: Pos -> bool, f: Pos -> int, k: int, best: Best<Move>)
    requires 0 <= k <= 64
    ensures var r := MinScan(ok, f, k, best);
      r.score <= best.score && (r.score == best.score ==> r.move == best.move)
    decreases 64 - k
  {
    if k < 64 {
      MinScanKeeps(ok, f, k + 1, MinStep(ok, f, ScanPos(k), best));
    }
  }

  /** No accepted cell from step `k` on scores below what the search ends with. */
  lemma MinScanBound(ok: Pos -> bool, f: Pos -> int, k: int, best: Best<Move>)
    requires 0 <= k <= 64
    ensures var r := MinScan(ok, f, k, best);
      forall q | ok(q) && Scanned(q, k) :: f(q) >= r.score
  {
    forall q | ok(q) && Scanned(q, k)
      ensures f(q) >= MinScan(ok, f, k, best).score
    {
      RankScanPos(q);
      MinScanBoundAt(ok, f, k, best, q);
    }
  }

  /** One accepted cell `q` scanned from step `k` on scores no less than the result. */
  lemma {:induction false} MinScanBoundAt(ok: Pos -> bool, f: Pos -> int, k: int, best: Best<Move>, q: Pos)
    requires 0 <= k < 64 && ok(q) && Scanned(q, k)
    ensures f(q) >= MinScan(ok, f, k, best).score
    decreases 64 - k
  {
    var next := MinStep(ok, f, ScanPos(k), best);
    var r := MinScan(ok, f, k + 1, next);
    assert r == MinScan(ok, f, k, best);
    ScanPosRank(k);
    RankScanPos(q);
    if Rank(q) == k {
      assert q == ScanPos(k);
      MinScanKeeps(ok, f, k + 1, next);
      assert f(q) >= next.score >= r.score;
    } else {
      assert Scanned(q, k + 1);
      MinScanBoundAt(ok, f, k + 1, next, q);
    }
  }

  lemma MinScanFound(ok: Pos -> bool, f: Pos -> int, k: int, best: Best<Move>)
    requires 0 <= k <= 64
    ensures var r := MinScan(ok, f, k, best);
      r.score < best.score ==>
        && r.move.Some? && ok(r.move.value) && Scanned(r.move.value, k)
        && f(r.move.value) == r.score
        && (forall q | ok(q) && Scanned(q, k) && Rank(q) < Rank(r.move.value) :: f(q) > r.score)
  {
    MinScanFoundCell(ok, f, k, best);
    MinScanFoundFirst(ok, f, k, best);
  }

  /** What a search that improves on `best` returns is an accepted, scanned cell with that score. */
  lemma {:induction false} MinScanFoundCell(ok: Pos -> bool, f: Pos -> int, k: int, best: Best<Move>)
    requires 0 <= k <= 64
    ensures var r := MinScan(ok, f, k, best);
      r.score < best.score ==>
        r.move.Some? && ok(r.move.value) && Scanned(r.move.value, k) && f(r.move.value) == r.score
    decreases 64 - k
  {
    if k < 64 {
      var c := ScanPos(k);
      var next := MinStep(ok, f, c, best);
      var r := MinScan(ok, f, k + 1, next);
      assert r == MinScan(ok, f, k, best);
      MinScanKeeps(ok, f, k + 1, next);
      MinScanFoundCell(ok, f, k + 1, next);
      if r.score < best.score && r.score == next.score {
        ScanPosRank(k);
        assert r.move == Some(c);
      }
    }
  }

  /** Every accepted cell scanned before the one returned scores more. */
  lemma MinScanFoundFirst(ok: Pos -> bool, f: Pos -> int, k: int, best: Best<Move>)
    requires 0 <= k <= 64
    ensures var r := MinScan(ok, f, k, best);
      r.score < best.score && r.move.Some? ==>
        forall q | ok(q) && Scanned(q, k) && Rank(q) < Rank(r.move.value) :: f(q) > r.score
  {
    var r := MinScan(ok, f, k, best);
    if r.score < best.score && r.move.Some? {
      forall q | ok(q) && Scanned(q, k) && Rank(q) < Rank(r.move.value)
        ensures f(q) > r.score
      {
        RankScanPos(q);
        MinScanFirstAt(ok, f, k, best, q);
      }
    }
  }

  /** One accepted cell `q` scanned before the result scores more than it. */
  lemma {:induction false} MinScanFirstAt(ok: Pos -> bool, f: Pos -> int, k: int, best: Best<Move>, q: Pos)
    requires 0 <= k < 64 && ok(q) && Scanned(q, k)
    requires var r := MinScan(ok, f, k, best);
      r.score < best.score && r.move.Some? && Rank(q) < Rank(r.move.value)
    ensures f(q) > MinScan(ok, f, k, best).score
    decreases 64 - k
  {
    var next := MinStep(ok, f, ScanPos(k), best);
    var r := MinScan(ok, f, k + 1, next);
    assert r == MinScan(ok, f, k, best);
    ScanPosRank(k);
    RankScanPos(q);
    if Rank(q) == k {
      MinScanPassed(ok, f, k, best);
    } else {
      assert r.move.value != ScanPos(k);
      MinScanBelowNext(ok, f, k, best);
      MinScanFirstAt(ok, f, k + 1, next, q);
    }
  }

  /** A result below `best` that is not the cell at step `k` is also below
      the best after step `k`. */
  lemma MinScanBelowNext(ok: Pos -> bool, f: Pos -> int, k: int, best: Best<Move>)
    requires 0 <= k < 64
    ensures var next := MinStep(ok, f, ScanPos(k), best);
      var r := MinScan(ok, f, k, best);
      r.score < best.score && r.move != Some(ScanPos(k)) ==> r.score < next.score
  {
    var next := MinStep(ok, f, ScanPos(k), best);
    assert MinScan(ok, f, k, best) == MinScan(ok, f, k + 1, next);
    MinScanKeeps(ok, f, k + 1, next);
  }

  /** The cell at step `k`, when accepted, scores above any other result of the scan from `k`. */
  lemma {:induction false} MinScanPassed(ok: Pos -> bool, f: Pos -> int, k: int, best: Best<Move>)
    requires 0 <= k < 64
    ensures var r := MinScan(ok, f, k, best);
      r.score < best.score && r.move != Some(ScanPos(k)) && ok(ScanPos(k)) ==> f(ScanPos(k)) > r.score
  {
    var next := MinStep(ok, f, ScanPos(k), best);
    assert MinScan(ok, f, k, best) == MinScan(ok, f, k + 1, next);
    MinScanKeeps(ok, f, k + 1, next);
  }

  /** A maximum search over `ms` from index `i`: a candidate whose score is
      above `best.score` becomes the new best. */
  function MaxScan(ms: seq<Pos>, f: Pos -> int, i: int, best: Best<Pos>): Best<Pos>
    requires 0 <= i <= |ms|
    decreases |ms| - i
  {
    if i == |ms| then best
    else if f(ms[i]) > best.score then MaxScan(ms, f, i + 1, Best(f(ms[i]), ms[i]))
    else MaxScan(ms, f, i + 1, best)
  }

  /** The search keeps `best` unless it finds a higher score; what it finds
      is a candidate from index `i` on scoring at least as much as every
      other one, and strictly more than every candidate earlier in scan order. */
  lemma {:induction false} MaxScanSpec(ms: seq<Pos>, f: Pos -> int, i: int, best: Best<Pos>)
    requires 0 <= i <= |ms| && InScanOrder(ms)
    ensures var r := MaxScan(ms, f, i, best);
      && r.score >= best.score
      && (r.score == best.score ==> r.move == best.move)
      && (forall j | i <= j < |ms| :: f(ms[j]) <= r.score)
      && (r.score > best.score ==>
            && r.move in ms[i..]
            && f(r.move) == r.score
            && (forall j | i <= j < |ms| && Rank(ms[j]) < Rank(r.move) :: f(ms[j]) < r.score))
    decreases |ms| - i
  {
    if i < |ms| {
      var next := if f(ms[i]) > best.score then Best(f(ms[i]), ms[i]) else best;
      MaxScanSpec(ms, f, i + 1, next);
      var r := MaxScan(ms, f, i, best);
      if r.score > best.score && r.move in ms[i + 1..] {
        var j :| i + 1 <= j < |ms| && ms[j] == r.move;
        assert ms[j] == ms[i + 1..][j - (i + 1)];
        assert Rank(ms[i]) < Rank(r.move);
      }
    }
  }

  /** `q` is accepted, no accepted cell scores less, and every accepted
      cell before it in scan order scores more. */
  ghost predicate IsFirstMin(ok: Pos -> bool, f: Pos -> int, q: Pos) {
    && ok(q)
    && (forall q' | ok(q') :: f(q') >= f(q))
    && (forall q' | ok(q') && Rank(q') < Rank(q) :: f(q') > f(q))
  }

  /** `p` is accepted, no accepted cell scores more, and every accepted
      cell before it in scan order scores less. */
  ghost predicate IsFirstMax(ok: Pos -> bool, f: Pos -> int, p: Pos) {
    && ok(p)
    && (forall q | ok(q) :: f(q) <= f(p))
    && (forall q | ok(q) && Rank(q) < Rank(p) :: f(q) < f(p))
  }

  /** Started from a score above every accepted cell's, the minimum search
      finds nothing iff nothing is accepted, and otherwise the first minimum. */
  lemma MinScanFirst(ok: Pos -> bool, f: Pos -> int, hi: int)
    requires forall q | ok(q) :: OnBoard(q.x, q.y) && f(q) < hi
    ensures var r := MinScan(ok, f, 0, Best(hi, None)).move;
      && (r.None? <==> Filter(ok, 0) == [])
      && (r.Some? ==> IsFirstMin(ok, f, r.value))
  {
    var start := Best(hi, None);
    MinScanSpec(ok, f, 0, start);
    FilterMembers(ok, 0);
    ScannedBelow();
    var r := MinScan(ok, f, 0, start);
    assert forall q | ok(q) :: Scanned(q, 0);
    if Filter(ok, 0) != [] {
      var q := Filter(ok, 0)[0];
      assert q in Filter(ok, 0);
      assert r.score <= f(q) < hi;
    } else {
      assert forall q :: !ok(q);
      assert r.score == hi;
    }
  }

  /** The candidate choice of `pickMove` over the moves `ms` scored by `f`:
      none is the pass, one is taken as it is, and otherwise the maximum
      search starts from `tiny` and the placeholder `Move(-1, -1)`. */
  function Choose(ms: seq<Pos>, f: Pos -> int, tiny: int): Move {
    if |ms| == 1 then Some(ms[0])
    else if |ms| == 0 then None
    else Some(MaxScan(ms, f, 0, Best(tiny, Pos(-1, -1))).move)
  }

  /** Over the accepted cells in scan order, each scoring above `tiny`, the
      choice passes iff nothing is accepted and otherwise is the first maximum. */
  lemma ChooseFirst(ok: Pos -> bool, f: Pos -> int, tiny: int)
    requires forall q | ok(q) :: OnBoard(q.x, q.y) && f(q) > tiny
    ensures var r := Choose(Filter(ok, 0), f, tiny);
      && (r.None? <==> Filter(ok, 0) == [])
      && (r.Some? ==> IsFirstMax(ok, f, r.value))
  {
    var ms := Filter(ok, 0);
    FilterSpec(ok, 0);
    if |ms| == 1 {
      ChooseOnly(ok, f, tiny);
    } else if |ms| >= 2 {
      ChooseAmong(ok, f, tiny);
    }
  }

  lemma ChooseOnly(ok: Pos -> bool, f: Pos -> int, tiny: int)
    requires forall q | ok(q) :: OnBoard(q.x, q.y)
    requires |Filter(ok, 0)| == 1
    ensures IsFirstMax(ok, f, Filter(ok, 0)[0])
  {
    var ms := Filter(ok, 0);
    FilterSpec(ok, 0);
    var m := ms[0];
    assert m in ms;
    forall q | ok(q)
      ensures q == m
    {
      RankScanPos(q);
      assert q in ms;
      var i :| 0 <= i < |ms| && ms[i] == q;
    }
  }

  lemma ChooseAmong(ok: Pos -> bool, f: Pos -> int, tiny: int)
    requires forall q | ok(q) :: OnBoard(q.x, q.y) && f(q) > tiny
    requires |Filter(ok, 0)| >= 2
    ensures IsFirstMax(ok, f, MaxScan(Filter(ok, 0), f, 0, Best(tiny, Pos(-1, -1))).move)
  {
    var ms := Filter(ok, 0);
    FilterSpec(ok, 0);
    var start := Best(tiny, Pos(-1, -1));
    MaxScanSpec(ms, f, 0, start);
    var r := MaxScan(ms, f, 0, start);
    assert ms[0] in ms;
    assert r.score > tiny;
    assert ms[0..] == ms;
    forall q | ok(q)
      ensures f(q) <= f(r.move)
      ensures Rank(q) < Rank(r.move) ==> f(q) < f(r.move)
    {
      RankScanPos(q);
      assert q in ms;
      var j :| 0 <= j < |ms| && ms[j] == q;
    }
  }

  /** Only one cell can be a first minimum. */
  lemma FirstMinUnique(ok: Pos -> bool, f: Pos -> int, q: Pos, q': Pos)
    requires forall c | ok(c) :: OnBoard(c.x, c.y)
    requires IsFirstMin(ok, f, q) && IsFirstMin(ok, f, q')
    ensures q == q'
  {
    RankScanPos(q);
    RankScanPos(q');
  }

  /** Only one cell can be a first maximum. */
  lemma FirstMaxUnique(ok: Pos -> bool, f: Pos -> int, p: Pos, p': Pos)
    requires forall c | ok(c) :: OnBoard(c.x, c.y)
    requires IsFirstMax(ok, f, p) && IsFirstMax(ok, f, p')
    ensures p == p'
  {
    RankScanPos(p);
    RankScanPos(p');
  }

  // ---------------------------------------------------------------------------
  // The legal moves.

  /** The test `checkMove(here, side)` of the scan. */
  function LegalTest(b: Board, side: Side): Pos -> bool {
    q => LegalAt(b, side, q)
  }

  /** `valid_moves` in `pickMove`: the scan of every cell with `checkMove`. */
  function LegalMoves(b: Board, side: Side): seq<Pos> {
    Filter(LegalTest(b, side), 0)
  }

  /** The scan finds every legal move and nothing else, each once, in scan
      order, and finds none exactly when `hasMoves` is false. */
  lemma LegalMovesSpec(b: Board, side: Side)
    ensures forall p :: p in LegalMoves(b, side) <==> LegalAt(b, side, p)
    ensures InScanOrder(LegalMoves(b, side))
    ensures LegalMoves(b, side) == [] <==> !HasMoves(b, side)
  {
    var ok := LegalTest(b, side);
    FilterSpec(ok, 0);
    ScannedBelow();
    forall p ensures p in LegalMoves(b, side) <==> LegalAt(b, side, p) {
      assert ok(p) == LegalAt(b, side, p);
    }
    if HasMoves(b, side) {
      var j :| 0 <= j < 64 && LegalAt(b, side, ScanPos(j));
      assert ok(ScanPos(j));
    }
  }


  /** The legal moves are on the board. */
  lemma LegalOnBoard(b: Board, side: Side)
    ensures forall q | LegalTest(b, side)(q) :: OnBoard(q.x, q.y)
  {
  }

  /** Every stone count lies between 0 and 64. */
  lemma CountBounds(b: Board, side: Side)
    ensures 0 <= Count(b, side) <= 64
  {
    CountIsOwned(b);
  }

  // ---------------------------------------------------------------------------
  // The opponent's reply.

  /** Our stone count after the opponent plays `q` on a copy of `b`
      (`their_work_board`). */
  function ReplyCount(b: Board, us: Side, them: Side, q: Pos): int {
    Count(DoMove(Copy(b), Some(q), them), us)
  }

  /** Every reply leaves us a stone count between 0 and 64. */
  lemma ReplyCountBounds(b: Board, us: Side, them: Side, q: Pos)
    ensures 0 <= ReplyCount(b, us, them, q) <= 64
  {
    CountBounds(DoMove(Copy(b), Some(q), them), us);
  }

  function ReplyCounts(b: Board, us: Side, them: Side): Pos -> int {
    q => ReplyCount(b, us, them, q)
  }

  /** `their_m`: the opponent loop of `pickMove`, started from `HUGE_SCORE`.
      `None` is player.cpp's placeholder `Move(-1, -1)`, left when no legal
      reply scores below `HUGE_SCORE`. */
  function WorstReply(b: Board, us: Side, them: Side, lim: Limits): Move {
    MinScan(LegalTest(b, them), ReplyCounts(b, us, them), 0, Best(lim.huge, None)).move
  }

  /** `q` is the legal reply that leaves us fewest stones, the first such in scan order. */
  ghost predicate IsFirstWorst(b: Board, us: Side, them: Side, q: Pos) {
    IsFirstMin(LegalTest(b, them), ReplyCounts(b, us, them), q)
  }

  /** With a sound `HUGE_SCORE`, the opponent has a reply iff it has a legal
      move, and the reply is the first one that minimises our count. */
  lemma WorstReplySpec(b: Board, us: Side, them: Side, lim: Limits)
    requires Sound(lim)
    ensures WorstReply(b, us, them, lim).None? <==> !HasMoves(b, them)
    ensures WorstReply(b, us, them, lim).Some? ==> IsFirstWorst(b, us, them, WorstReply(b, us, them, lim).value)
  {
    var ok, f := LegalTest(b, them), ReplyCounts(b, us, them);
    forall q | ok(q)
      ensures OnBoard(q.x, q.y) && f(q) < lim.huge
    {
      CountBounds(DoMove(b, Some(q), them), us);
    }
    MinScanFirst(ok, f, lim.huge);
    LegalMovesSpec(b, them);
  }

  /** The first worst reply is unique. */
  lemma FirstWorstUnique(b: Board, us: Side, them: Side, q: Pos, q': Pos)
    requires IsFirstWorst(b, us, them, q) && IsFirstWorst(b, us, them, q')
    ensures q == q'
  {
    LegalOnBoard(b, them);
    FirstMinUnique(LegalTest(b, them), ReplyCounts(b, us, them), q, q');
  }

  // ---------------------------------------------------------------------------
  // Our choice.

  /** Our stone count after playing `p`, then the opponent's reply (when it
      has one) on the same working board, a copy of `b` (`our_work_board`). */
  function Outcome(b: Board, us: Side, them: Side, p: Pos, lim: Limits): int {
    var ours := DoMove(Copy(b), Some(p), us);
    var reply := WorstReply(ours, us, them, lim);
    var after := if reply.Some? then DoMove(ours, reply, them) else ours;
    Count(after, us)
  }

  function Outcomes(b: Board, us: Side, them: Side, lim: Limits): Pos -> int {
    p => Outcome(b, us, them, p, lim)
  }

  /** Every outcome is a stone count. */
  lemma OutcomeBounds(b: Board, us: Side, them: Side, p: Pos, lim: Limits)
    ensures 0 <= Outcome(b, us, them, p, lim) <= 64
  {
    var ours := DoMove(b, Some(p), us);
    var reply := WorstReply(ours, us, them, lim);
    CountBounds(if reply.Some? then DoMove(ours, reply, them) else ours, us);
  }

  /** With a sound `HUGE_SCORE`, the outcome of `p` is our count after `p`
      alone when the opponent then has no move, and otherwise our count
      after the opponent's first worst reply. */
  lemma OutcomeSpec(b: Board, us: Side, them: Side, p: Pos, lim: Limits)
    requires Sound(lim)
    ensures var ours := DoMove(b, Some(p), us);
      && (!HasMoves(ours, them) ==> Outcome(b, us, them, p, lim) == Count(ours, us))
      && (HasMoves(ours, them) ==>
            exists q :: IsFirstWorst(ours, us, them, q) &&
              Outcome(b, us, them, p, lim) == Count(DoMove(ours, Some(q), them), us))
  {
    var ours := DoMove(b, Some(p), us);
    WorstReplySpec(ours, us, them, lim);
    var reply := WorstReply(ours, us, them, lim);
    if reply.Some? {
      assert IsFirstWorst(ours, us, them, reply.value);
    }
  }

  /** `pickMove(0)`: the candidate choice over the legal moves, scored by outcome. */
  function PickMove(pl: Player, lim: Limits): Move {
    Choose(LegalMoves(pl.board, pl.us), Outcomes(pl.board, pl.us, pl.them, lim), lim.tiny)
  }

  /** `p` is the legal move with the best outcome, the first such in scan order. */
  ghost predicate IsFirstBest(b: Board, us: Side, them: Side, p: Pos, lim: Limits) {
    IsFirstMax(LegalTest(b, us), Outcomes(b, us, them, lim), p)
  }

  /** `pickMove` passes iff the player has no legal move, whatever the limits. */
  lemma PickMovePass(pl: Player, lim: Limits)
    ensures PickMove(pl, lim).None? <==> !HasMoves(pl.board, pl.us)
  {
    LegalMovesSpec(pl.board, pl.us);
  }

  /** The only legal move is returned as it is, whatever the limits. */
  lemma PickMoveSingle(pl: Player, lim: Limits, p: Pos)
    requires LegalAt(pl.board, pl.us, p)
    requires forall q | LegalAt(pl.board, pl.us, q) :: q == p
    ensures PickMove(pl, lim) == Some(p)
  {
    RankScanPos(p);
    FilterOne(LegalTest(pl.board, pl.us), p);
  }

  /** With a sound `TINY_SCORE`, whenever the player has a legal move,
      `pickMove` returns the first legal move with the best outcome. */
  lemma PickMoveBest(pl: Player, lim: Limits)
    requires Sound(lim) && HasMoves(pl.board, pl.us)
    ensures PickMove(pl, lim).Some? && IsFirstBest(pl.board, pl.us, pl.them, PickMove(pl, lim).value, lim)
  {
    var ok, f := LegalTest(pl.board, pl.us), Outcomes(pl.board, pl.us, pl.them, lim);
    forall q | ok(q)
      ensures OnBoard(q.x, q.y) && f(q) > lim.tiny
    {
      OutcomeBounds(pl.board, pl.us, pl.them, q, lim);
    }
    ChooseFirst(ok, f, lim.tiny);
    LegalMovesSpec(pl.board, pl.us);
  }

  /** With a sound `TINY_SCORE`, what `pickMove` returns passes `checkMove`:
      a legal move, or the pass when there is none. */
  lemma PickMoveLegal(pl: Player, lim: Limits)
    requires Sound(lim)
    ensures CheckMove(pl.board, PickMove(pl, lim), pl.us)
  {
    PickMovePass(pl, lim);
    if HasMoves(pl.board, pl.us) {
      PickMoveBest(pl, lim);
    }
  }

  /** The first best move is unique: the search has exactly one right answer. */
  lemma FirstBestUnique(b: Board, us: Side, them: Side, p: Pos, p': Pos, lim: Limits)
    requires IsFirstBest(b, us, them, p, lim) && IsFirstBest(b, us, them, p', lim)
    ensures p == p'
  {
    LegalOnBoard(b, us);
    FirstMaxUnique(LegalTest(b, us), Outcomes(b, us, them, lim), p, p');
  }

  // ---------------------------------------------------------------------------
  // A turn.

  /** `Player::doMove(opponentsMove, msLeft)`: apply the opponent's move
      unless it passed, pick a move, apply it unless it is the pass, and
      return it with the updated player. */
  function PlayerDoMove(pl: Player, opp: Move, lim: Limits): (Player, Move) {
    var seen := if opp.Some? then DoMove(pl.board, opp, pl.them) else pl.board;
    var m := PickMove(pl.(board := seen), lim);
    var next := if m.Some? then DoMove(seen, m, pl.us) else seen;
    (pl.(board := next), m)
  }

  /** A turn keeps the sides, answers the position left by the opponent's
      move, passes iff that position has no move for the player, and
      otherwise plays the first best legal move, adding one stone. */
  lemma PlayerDoMoveSpec(pl: Player, opp: Move, lim: Limits)
    requires Sound(lim)
    ensures var (next, m) := PlayerDoMove(pl, opp, lim);
      var seen := DoMove(pl.board, opp, pl.them);
      && next.us == pl.us && next.them == pl.them
      && (Consistent(pl) ==> Consistent(next))
      && (m.None? <==> !HasMoves(seen, pl.us))
      && (m.None? ==> next.board == seen)
      && (m.Some? ==>
            && IsFirstBest(seen, pl.us, pl.them, m.value, lim)
            && next.board == DoMove(seen, m, pl.us)
            && Stones(next.board) == Stones(seen) + 1)
  {
    var seen := DoMove(pl.board, opp, pl.them);
    var here := pl.(board := seen);
    PickMovePass(here, lim);
    var m := PickMove(here, lim);
    if m.Some? {
      PickMoveBest(here, lim);
      DoMoveTaken(seen, m.value, pl.us);
    }
  }
}
