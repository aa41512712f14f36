/**
 The positional scores of board.cpp: `score`, `scoreBlack` and `scoreWhite`.
 Both are written as board.cpp computes them, from the stone count and
 single bits of the `black` set (or of `taken & ~black` for white). Each is
 then shown to equal a weighted sum over the 64 cells, with one weight per
 kind of square: corner, edge cell next to a corner (C-square), other edge
 cell, diagonal neighbour of a corner (X-square), interior.
 */
module Scores {
  import opened Common
  import opened Boards

  /** The value of bit `i` of a bit set, as `bitset::operator[]` converts it to `int`. */
  function BitOf(s: set<int>, i: int): int {
    if i in s then 1 else 0
  }

  /** The score loop over the edges, `for (int i = 1; i < 7; i++)`, each
      step adding `w` for each of the four edge cells it visits. */
  function EdgeBonus(s: set<int>, w: int, i: int): int
    decreases 7 - i
  {
    if i >= 7 then 0
    else w * (BitOf(s, i) + BitOf(s, 56 + i) + BitOf(s, i * 8) + BitOf(s, i * 8 + 7)) + EdgeBonus(s, w, i + 1)
  }

  /** The loop `for (int i = 0; i < 2; i++)` that charges 6 for each edge
      cell next to a corner. */
  function CPenalty(s: set<int>, i: int): int
    decreases 2 - i
  {
    if i >= 2 then 0
    else 6 * (BitOf(s, 56 * i + 1) + BitOf(s, 56 * i + 6) + BitOf(s, 40 * i + 8) + BitOf(s, 40 * i + 15))
         + CPenalty(s, i + 1)
  }

  /** The shape both `scoreBlack` and `scoreWhite` share: the count, a
      corner bonus, an edge bonus, the C-square penalty and the X-square
      penalty of 11, read from the bit set `s` of the side's stones. */
  function Positional(count: int, s: set<int>, corner: int, edge: int): int {
    count
    + corner * (BitOf(s, 0) + BitOf(s, 7) + BitOf(s, 56) + BitOf(s, 63))
    + EdgeBonus(s, edge, 1)
    - CPenalty(s, 0)
    - 11 * (BitOf(s, 9) + BitOf(s, 14) + BitOf(s, 49) + BitOf(s, 54))
  }

  /** `scoreBlack()`: corner bonus 9, edge bonus 2, over the `black` bits. */
  function ScoreBlack(b: Board): int {
    Positional(CountBlack(b), ToBits(b).black, 9, 2)
  }

  /** `scoreWhite()`: corner bonus 2, edge bonus 1, over `taken & ~black`. */
  function ScoreWhite(b: Board): int {
    Positional(CountWhite(b), ToBits(b).taken - ToBits(b).black, 2, 1)
  }

  /** `score(side)`. */
  function Score(b: Board, side: Side): int {
    if side == Black then ScoreBlack(b) else ScoreWhite(b)
  }

  // ---------------------------------------------------------------------------
  // The weighted-sum description.

  predicate IsCorner(x: int, y: int) {
    (x == 0 || x == 7) && (y == 0 || y == 7)
  }

  /** An edge cell orthogonally next to a corner. */
  predicate IsCSquare(x: int, y: int) {
    ((x == 0 || x == 7) && (y == 1 || y == 6)) || ((y == 0 || y == 7) && (x == 1 || x == 6))
  }

  /** A cell diagonally next to a corner. */
  predicate IsXSquare(x: int, y: int) {
    (x == 1 || x == 6) && (y == 1 || y == 6)
  }

  predicate IsEdge(x: int, y: int) {
    x == 0 || x == 7 || y == 0 || y == 7
  }

  /** What one stone of `side` on `(x, y)` is worth. Black: corner 10,
      C-square -3, other edge 3, X-square -10, interior 1. White: corner 3,
      C-square -4, other edge 2, X-square -10, interior 1. */
  function Weight(side: Side, x: int, y: int): int {
    if IsCorner(x, y) then (if side == Black then 10 else 3)
    else if IsCSquare(x, y) then (if side == Black then -3 else -4)
    else if IsEdge(x, y) then (if side == Black then 3 else 2)
    else if IsXSquare(x, y) then -10
    else 1
  }

  /** The weights of the stones in `s` on the first `x` cells of row `y`. */
  function RowValue(s: set<int>, side: Side, y: int, x: int): int
    requires 0 <= x
  {
    if x == 0 then 0 else RowValue(s, side, y, x - 1) + Weight(side, x - 1, y) * BitOf(s, x - 1 + 8 * y)
  }

  /** The weights of the stones in `s` on the first `y` rows. */
  function GridValue(s: set<int>, side: Side, y: int): int
    requires 0 <= y
  {
    if y == 0 then 0 else GridValue(s, side, y - 1) + RowValue(s, side, y - 1, 8)
  }

  /** The positional value of `side`'s stones: the sum of their weights. */
  function WeightedScore(b: Board, side: Side): int {
    GridValue(Owned(b, side), side, 8)
  }

  /** The number of members of `s` below `n`, one cell at a time. */
  function Tally(s: set<int>, n: int): int
    requires 0 <= n
  {
    if n == 0 then 0 else Tally(s, n - 1) + BitOf(s, n - 1)
  }

  // ---------------------------------------------------------------------------
  // Proofs.

  /** The bit sets the two scores read hold exactly the side's stones. */
  lemma ScoreBitsOwned(b: Board)
    ensures ToBits(b).black == Owned(b, Black)
    ensures ToBits(b).taken - ToBits(b).black == Owned(b, White)
  {
    forall i ensures i in ToBits(b).taken - ToBits(b).black <==> i in Owned(b, White) {
      if 0 <= i < 64 { CellCases(CellAt(b, i)); }
    }
  }

  lemma {:induction false} TallyIsSize(s: set<int>, n: int)
    requires 0 <= n
    ensures Tally(s, n) == |Below(s, n)|
  {
    if n > 0 {
      TallyIsSize(s, n - 1);
      if n - 1 in s {
        assert Below(s, n) == Below(s, n - 1) + {n - 1};
      } else {
        assert Below(s, n) == Below(s, n - 1);
      }
    }
  }

  /** `count(side)` adds one per stone. */
  lemma CountIsTally(b: Board, side: Side)
    ensures Count(b, side) == Tally(Owned(b, side), 64)
  {
    TallyIsSize(Owned(b, side), 64);
    CountIsOwned(b);
    assert Below(Owned(b, side), 64) == Owned(b, side);
  }

  lemma TallyRow(s: set<int>, y: int)
    requires 0 <= y < 8
    ensures Tally(s, 8 * y + 8) == Tally(s, 8 * y)
      + BitOf(s, 8 * y) + BitOf(s, 8 * y + 1) + BitOf(s, 8 * y + 2) + BitOf(s, 8 * y + 3)
      + BitOf(s, 8 * y + 4) + BitOf(s, 8 * y + 5) + BitOf(s, 8 * y + 6) + BitOf(s, 8 * y + 7)
  {
    var n := 8 * y;
    assert Tally(s, n + 8) == Tally(s, n + 7) + BitOf(s, n + 7);
    assert Tally(s, n + 7) == Tally(s, n + 6) + BitOf(s, n + 6);
    assert Tally(s, n + 6) == Tally(s, n + 5) + BitOf(s, n + 5);
    assert Tally(s, n + 5) == Tally(s, n + 4) + BitOf(s, n + 4);
    assert Tally(s, n + 4) == Tally(s, n + 3) + BitOf(s, n + 3);
    assert Tally(s, n + 3) == Tally(s, n + 2) + BitOf(s, n + 2);
    assert Tally(s, n + 2) == Tally(s, n + 1) + BitOf(s, n + 1);
    assert Tally(s, n + 1) == Tally(s, n + 0) + BitOf(s, n + 0);
  }

  /** The tally of the 64 cells, written out. */
  lemma TallyExpanded(s: set<int>)
    ensures Tally(s, 64) ==
        BitOf(s, 0) + BitOf(s, 1) + BitOf(s, 2) + BitOf(s, 3) + BitOf(s, 4) + BitOf(s, 5) + BitOf(s, 6) + BitOf(s, 7)
      + BitOf(s, 8) + BitOf(s, 9) + BitOf(s, 10) + BitOf(s, 11) + BitOf(s, 12) + BitOf(s, 13) + BitOf(s, 14) + BitOf(s, 15)
      + BitOf(s, 16) + BitOf(s, 17) + BitOf(s, 18) + BitOf(s, 19) + BitOf(s, 20) + BitOf(s, 21) + BitOf(s, 22) + BitOf(s, 23)
      + BitOf(s, 24) + BitOf(s, 25) + BitOf(s, 26) + BitOf(s, 27) + BitOf(s, 28) + BitOf(s, 29) + BitOf(s, 30) + BitOf(s, 31)
      + BitOf(s, 32) + BitOf(s, 33) + BitOf(s, 34) + BitOf(s, 35) + BitOf(s, 36) + BitOf(s, 37) + BitOf(s, 38) + BitOf(s, 39)
      + BitOf(s, 40) + BitOf(s, 41) + BitOf(s, 42) + BitOf(s, 43) + BitOf(s, 44) + BitOf(s, 45) + BitOf(s, 46) + BitOf(s, 47)
      + BitOf(s, 48) + BitOf(s, 49) + BitOf(s, 50) + BitOf(s, 51) + BitOf(s, 52) + BitOf(s, 53) + BitOf(s, 54) + BitOf(s, 55)
      + BitOf(s, 56) + BitOf(s, 57) + BitOf(s, 58) + BitOf(s, 59) + BitOf(s, 60) + BitOf(s, 61) + BitOf(s, 62) + BitOf(s, 63)
  {
    TallyRow(s, 0);
    TallyRow(s, 1);
    TallyRow(s, 2);
    TallyRow(s, 3);
    TallyRow(s, 4);
    TallyRow(s, 5);
    TallyRow(s, 6);
    TallyRow(s, 7);
  }

  /** One row of weights, written out with the weights still symbolic. */
  lemma RowExpanded(s: set<int>, side: Side, y: int)
    ensures RowValue(s, side, y, 8) ==
      Weight(side, 0, y) * BitOf(s, 0 + 8 * y)
      + Weight(side, 1, y) * BitOf(s, 1 + 8 * y)
      + Weight(side, 2, y) * BitOf(s, 2 + 8 * y)
      + Weight(side, 3, y) * BitOf(s, 3 + 8 * y)
      + Weight(side, 4, y) * BitOf(s, 4 + 8 * y)
      + Weight(side, 5, y) * BitOf(s, 5 + 8 * y)
      + Weight(side, 6, y) * BitOf(s, 6 + 8 * y)
      + Weight(side, 7, y) * BitOf(s, 7 + 8 * y)
  {
    assert RowValue(s, side, y, 8) == RowValue(s, side, y, 7) + Weight(side, 7, y) * BitOf(s, 7 + 8 * y);
    assert RowValue(s, side, y, 7) == RowValue(s, side, y, 6) + Weight(side, 6, y) * BitOf(s, 6 + 8 * y);
    assert RowValue(s, side, y, 6) == RowValue(s, side, y, 5) + Weight(side, 5, y) * BitOf(s, 5 + 8 * y);
    assert RowValue(s, side, y, 5) == RowValue(s, side, y, 4) + Weight(side, 4, y) * BitOf(s, 4 + 8 * y);
    assert RowValue(s, side, y, 4) == RowValue(s, side, y, 3) + Weight(side, 3, y) * BitOf(s, 3 + 8 * y);
    assert RowValue(s, side, y, 3) == RowValue(s, side, y, 2) + Weight(side, 2, y) * BitOf(s, 2 + 8 * y);
    assert RowValue(s, side, y, 2) == RowValue(s, side, y, 1) + Weight(side, 1, y) * BitOf(s, 1 + 8 * y);
    assert RowValue(s, side, y, 1) == RowValue(s, side, y, 0) + Weight(side, 0, y) * BitOf(s, 0 + 8 * y);
  }

  /** The weighted sum, row by row. */
  lemma GridExpanded(s: set<int>, side: Side)
    ensures GridValue(s, side, 8) ==
      RowValue(s, side, 0, 8) + RowValue(s, side, 1, 8) + RowValue(s, side, 2, 8) + RowValue(s, side, 3, 8)
      + RowValue(s, side, 4, 8) + RowValue(s, side, 5, 8) + RowValue(s, side, 6, 8) + RowValue(s, side, 7, 8)
  {
    assert GridValue(s, side, 8) == GridValue(s, side, 7) + RowValue(s, side, 7, 8);
    assert GridValue(s, side, 7) == GridValue(s, side, 6) + RowValue(s, side, 6, 8);
    assert GridValue(s, side, 6) == GridValue(s, side, 5) + RowValue(s, side, 5, 8);
    assert GridValue(s, side, 5) == GridValue(s, side, 4) + RowValue(s, side, 4, 8);
    assert GridValue(s, side, 4) == GridValue(s, side, 3) + RowValue(s, side, 3, 8);
    assert GridValue(s, side, 3) == GridValue(s, side, 2) + RowValue(s, side, 2, 8);
    assert GridValue(s, side, 2) == GridValue(s, side, 1) + RowValue(s, side, 1, 8);
    assert GridValue(s, side, 1) == GridValue(s, side, 0) + RowValue(s, side, 0, 8);
  }

  /** The weighted sum for Black, written out cell by cell. */
  lemma BlackExpanded(s: set<int>)
    ensures GridValue(s, Black, 8) ==
        10 * BitOf(s, 0) + -3 * BitOf(s, 1) + 3 * BitOf(s, 2) + 3 * BitOf(s, 3) + 3 * BitOf(s, 4) + 3 * BitOf(s, 5) + -3 * BitOf(s, 6) + 10 * BitOf(s, 7)
      + -3 * BitOf(s, 8) + -10 * BitOf(s, 9) + BitOf(s, 10) + BitOf(s, 11) + BitOf(s, 12) + BitOf(s, 13) + -10 * BitOf(s, 14) + -3 * BitOf(s, 15)
      + 3 * BitOf(s, 16) + BitOf(s, 17) + BitOf(s, 18) + BitOf(s, 19) + BitOf(s, 20) + BitOf(s, 21) + BitOf(s, 22) + 3 * BitOf(s, 23)
      + 3 * BitOf(s, 24) + BitOf(s, 25) + BitOf(s, 26) + BitOf(s, 27) + BitOf(s, 28) + BitOf(s, 29) + BitOf(s, 30) + 3 * BitOf(s, 31)
      + 3 * BitOf(s, 32) + BitOf(s, 33) + BitOf(s, 34) + BitOf(s, 35) + BitOf(s, 36) + BitOf(s, 37) + BitOf(s, 38) + 3 * BitOf(s, 39)
      + 3 * BitOf(s, 40) + BitOf(s, 41) + BitOf(s, 42) + BitOf(s, 43) + BitOf(s, 44) + BitOf(s, 45) + BitOf(s, 46) + 3 * BitOf(s, 47)
      + -3 * BitOf(s, 48) + -10 * BitOf(s, 49) + BitOf(s, 50) + BitOf(s, 51) + BitOf(s, 52) + BitOf(s, 53) + -10 * BitOf(s, 54) + -3 * BitOf(s, 55)
      + 10 * BitOf(s, 56) + -3 * BitOf(s, 57) + 3 * BitOf(s, 58) + 3 * BitOf(s, 59) + 3 * BitOf(s, 60) + 3 * BitOf(s, 61) + -3 * BitOf(s, 62) + 10 * BitOf(s, 63)
  {
    assert RowValue(s, Black, 0, 8) == 10 * BitOf(s, 0) + -3 * BitOf(s, 1) + 3 * BitOf(s, 2) + 3 * BitOf(s, 3) + 3 * BitOf(s, 4) + 3 * BitOf(s, 5) + -3 * BitOf(s, 6) + 10 * BitOf(s, 7) by {
      RowExpanded(s, Black, 0);
    }
    assert RowValue(s, Black, 1, 8) == -3 * BitOf(s, 8) + -10 * BitOf(s, 9) + BitOf(s, 10) + BitOf(s, 11) + BitOf(s, 12) + BitOf(s, 13) + -10 * BitOf(s, 14) + -3 * BitOf(s, 15) by {
      RowExpanded(s, Black, 1);
    }
    assert RowValue(s, Black, 2, 8) == 3 * BitOf(s, 16) + BitOf(s, 17) + BitOf(s, 18) + BitOf(s, 19) + BitOf(s, 20) + BitOf(s, 21) + BitOf(s, 22) + 3 * BitOf(s, 23) by {
      RowExpanded(s, Black, 2);
    }
    assert RowValue(s, Black, 3, 8) == 3 * BitOf(s, 24) + BitOf(s, 25) + BitOf(s, 26) + BitOf(s, 27) + BitOf(s, 28) + BitOf(s, 29) + BitOf(s, 30) + 3 * BitOf(s, 31) by {
      RowExpanded(s, Black, 3);
    }
    assert RowValue(s, Black, 4, 8) == 3 * BitOf(s, 32) + BitOf(s, 33) + BitOf(s, 34) + BitOf(s, 35) + BitOf(s, 36) + BitOf(s, 37) + BitOf(s, 38) + 3 * BitOf(s, 39) by {
      RowExpanded(s, Black, 4);
    }
    assert RowValue(s, Black, 5, 8) == 3 * BitOf(s, 40) + BitOf(s, 41) + BitOf(s, 42) + BitOf(s, 43) + BitOf(s, 44) + BitOf(s, 45) + BitOf(s, 46) + 3 * BitOf(s, 47) by {
      RowExpanded(s, Black, 5);
    }
    assert RowValue(s, Black, 6, 8) == -3 * BitOf(s, 48) + -10 * BitOf(s, 49) + BitOf(s, 50) + BitOf(s, 51) + BitOf(s, 52) + BitOf(s, 53) + -10 * BitOf(s, 54) + -3 * BitOf(s, 55) by {
      RowExpanded(s, Black, 6);
    }
    assert RowValue(s, Black, 7, 8) == 10 * BitOf(s, 56) + -3 * BitOf(s, 57) + 3 * BitOf(s, 58) + 3 * BitOf(s, 59) + 3 * BitOf(s, 60) + 3 * BitOf(s, 61) + -3 * BitOf(s, 62) + 10 * BitOf(s, 63) by {
      RowExpanded(s, Black, 7);
    }
    GridExpanded(s, Black);
  }

  /** The weighted sum for White, written out cell by cell. */
  lemma WhiteExpanded(s: set<int>)
    ensures GridValue(s, White, 8) ==
        3 * BitOf(s, 0) + -4 * BitOf(s, 1) + 2 * BitOf(s, 2) + 2 * BitOf(s, 3) + 2 * BitOf(s, 4) + 2 * BitOf(s, 5) + -4 * BitOf(s, 6) + 3 * BitOf(s, 7)
      + -4 * BitOf(s, 8) + -10 * BitOf(s, 9) + BitOf(s, 10) + BitOf(s, 11) + BitOf(s, 12) + BitOf(s, 13) + -10 * BitOf(s, 14) + -4 * BitOf(s, 15)
      + 2 * BitOf(s, 16) + BitOf(s, 17) + BitOf(s, 18) + BitOf(s, 19) + BitOf(s, 20) + BitOf(s, 21) + BitOf(s, 22) + 2 * BitOf(s, 23)
      + 2 * BitOf(s, 24) + BitOf(s, 25) + BitOf(s, 26) + BitOf(s, 27) + BitOf(s, 28) + BitOf(s, 29) + BitOf(s, 30) + 2 * BitOf(s, 31)
      + 2 * BitOf(s, 32) + BitOf(s, 33) + BitOf(s, 34) + BitOf(s, 35) + BitOf(s, 36) + BitOf(s, 37) + BitOf(s, 38) + 2 * BitOf(s, 39)
      + 2 * BitOf(s, 40) + BitOf(s, 41) + BitOf(s, 42) + BitOf(s, 43) + BitOf(s, 44) + BitOf(s, 45) + BitOf(s, 46) + 2 * BitOf(s, 47)
      + -4 * BitOf(s, 48) + -10 * BitOf(s, 49) + BitOf(s, 50) + BitOf(s, 51) + BitOf(s, 52) + BitOf(s, 53) + -10 * BitOf(s, 54) + -4 * BitOf(s, 55)
      + 3 * BitOf(s, 56) + -4 * BitOf(s, 57) + 2 * BitOf(s, 58) + 2 * BitOf(s, 59) + 2 * BitOf(s, 60) + 2 * BitOf(s, 61) + -4 * BitOf(s, 62) + 3 * BitOf(s, 63)
  {
    assert RowValue(s, White, 0, 8) == 3 * BitOf(s, 0) + -4 * BitOf(s, 1) + 2 * BitOf(s, 2) + 2 * BitOf(s, 3) + 2 * BitOf(s, 4) + 2 * BitOf(s, 5) + -4 * BitOf(s, 6) + 3 * BitOf(s, 7) by {
      RowExpanded(s, White, 0);
    }
    assert RowValue(s, White, 1, 8) == -4 * BitOf(s, 8) + -10 * BitOf(s, 9) + BitOf(s, 10) + BitOf(s, 11) + BitOf(s, 12) + BitOf(s, 13) + -10 * BitOf(s, 14) + -4 * BitOf(s, 15) by {
      RowExpanded(s, White, 1);
    }
    assert RowValue(s, White, 2, 8) == 2 * BitOf(s, 16) + BitOf(s, 17) + BitOf(s, 18) + BitOf(s, 19) + BitOf(s, 20) + BitOf(s, 21) + BitOf(s, 22) + 2 * BitOf(s, 23) by {
      RowExpanded(s, White, 2);
    }
    assert RowValue(s, White, 3, 8) == 2 * BitOf(s, 24) + BitOf(s, 25) + BitOf(s, 26) + BitOf(s, 27) + BitOf(s, 28) + BitOf(s, 29) + BitOf(s, 30) + 2 * BitOf(s, 31) by {
      RowExpanded(s, White, 3);
    }
    assert RowValue(s, White, 4, 8) == 2 * BitOf(s, 32) + BitOf(s, 33) + BitOf(s, 34) + BitOf(s, 35) + BitOf(s, 36) + BitOf(s, 37) + BitOf(s, 38) + 2 * BitOf(s, 39) by {
      RowExpanded(s, White, 4);
    }
    assert RowValue(s, White, 5, 8) == 2 * BitOf(s, 40) + BitOf(s, 41) + BitOf(s, 42) + BitOf(s, 43) + BitOf(s, 44) + BitOf(s, 45) + BitOf(s, 46) + 2 * BitOf(s, 47) by {
      RowExpanded(s, White, 5);
    }
    assert RowValue(s, White, 6, 8) == -4 * BitOf(s, 48) + -10 * BitOf(s, 49) + BitOf(s, 50) + BitOf(s, 51) + BitOf(s, 52) + BitOf(s, 53) + -10 * BitOf(s, 54) + -4 * BitOf(s, 55) by {
      RowExpanded(s, White, 6);
    }
    assert RowValue(s, White, 7, 8) == 3 * BitOf(s, 56) + -4 * BitOf(s, 57) + 2 * BitOf(s, 58) + 2 * BitOf(s, 59) + 2 * BitOf(s, 60) + 2 * BitOf(s, 61) + -4 * BitOf(s, 62) + 3 * BitOf(s, 63) by {
      RowExpanded(s, White, 7);
    }
    GridExpanded(s, White);
  }

  /** The edge loop, unrolled. */
  lemma EdgeBonusUnrolled(s: set<int>, w: int)
    ensures EdgeBonus(s, w, 1) == w * EdgeCells(s, 1)
    ensures EdgeCells(s, 1) == (
        BitOf(s, 1) + BitOf(s, 57) + BitOf(s, 8) + BitOf(s, 15)
      + BitOf(s, 2) + BitOf(s, 58) + BitOf(s, 16) + BitOf(s, 23)
      + BitOf(s, 3) + BitOf(s, 59) + BitOf(s, 24) + BitOf(s, 31)
      + BitOf(s, 4) + BitOf(s, 60) + BitOf(s, 32) + BitOf(s, 39)
      + BitOf(s, 5) + BitOf(s, 61) + BitOf(s, 40) + BitOf(s, 47)
      + BitOf(s, 6) + BitOf(s, 62) + BitOf(s, 48) + BitOf(s, 55))
  {
    EdgeBonusScales(s, w, 1);
    assert EdgeCells(s, 7) == 0;
  }

  /** The edge cells the loop visits from step `i` on that are in `s`. */
  function EdgeCells(s: set<int>, i: int): int
    decreases 7 - i
  {
    if i >= 7 then 0
    else BitOf(s, i) + BitOf(s, 56 + i) + BitOf(s, i * 8) + BitOf(s, i * 8 + 7) + EdgeCells(s, i + 1)
  }

  lemma {:induction false} EdgeBonusScales(s: set<int>, w: int, i: int)
    ensures EdgeBonus(s, w, i) == w * EdgeCells(s, i)
    decreases 7 - i
  {
    if i < 7 {
      EdgeBonusScales(s, w, i + 1);
      var a := BitOf(s, i) + BitOf(s, 56 + i) + BitOf(s, i * 8) + BitOf(s, i * 8 + 7);
      Distributes(w, a, EdgeCells(s, i + 1));
    }
  }

  lemma Distributes(w: int, a: int, c: int)
    ensures w * a + w * c == w * (a + c)
  {
  }

  /** The C-square loop, unrolled. */
  lemma CPenaltyUnrolled(s: set<int>)
    ensures CPenalty(s, 0) == 6 * (
        BitOf(s, 1) + BitOf(s, 6) + BitOf(s, 8) + BitOf(s, 15)
      + BitOf(s, 57) + BitOf(s, 62) + BitOf(s, 48) + BitOf(s, 55))
  {
    assert CPenalty(s, 2) == 0;
  }

  /** Black's positional formula over a set of cells is its weighted sum. */
  lemma BlackPositional(s: set<int>)
    ensures Positional(Tally(s, 64), s, 9, 2) == GridValue(s, Black, 8)
  {
    TallyExpanded(s);
    CPenaltyUnrolled(s);
    EdgeBonusUnrolled(s, 2);
    BlackExpanded(s);
  }

  /** White's positional formula over a set of cells is its weighted sum. */
  lemma WhitePositional(s: set<int>)
    ensures Positional(Tally(s, 64), s, 2, 1) == GridValue(s, White, 8)
  {
    TallyExpanded(s);
    CPenaltyUnrolled(s);
    EdgeBonusUnrolled(s, 1);
    WhiteExpanded(s);
  }

  /** `score(side)` is the sum of the weights of `side`'s stones. */
  lemma ScoreIsWeighted(b: Board, side: Side)
    ensures Score(b, side) == WeightedScore(b, side)
  {
    ScoreBitsOwned(b);
    CountIsTally(b, side);
    if side == Black {
      BlackPositional(Owned(b, Black));
    } else {
      WhitePositional(Owned(b, White));
    }
  }
}
