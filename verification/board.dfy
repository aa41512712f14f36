/**
 The 8x8 position of board.cpp. board.cpp keeps two 64-bit sets, `taken`
 and `black`, indexed by `x + 8*y`; here the position is eight rows of eight
 cells, and the two bit sets are a derived view (`Bits`). Initial setup,
 copy and the test loader are written through that view, mirroring the bit
 operations they perform.
 */
module Boards {
  import opened Common

  datatype Cell = Empty | Stone(owner: Side)

  /** A cell is empty, black or white. */
  lemma CellCases(c: Cell)
    ensures c == Empty || c == Stone(Black) || c == Stone(White)
  {
    if c.Stone? { assert c.owner.Black? || c.owner.White?; }
  }

  /** One row of the board, `x` from 0 to 7. */
  type Row = r: seq<Cell> | |r| == 8 witness seq(8, i => Empty)

  const EmptyRow: Row := seq(8, i => Empty)

  /** Eight rows, `y` from 0 to 7: cell `(x, y)` is `b[y][x]`. */
  type Board = b: seq<Row> | |b| == 8 witness seq(8, i => EmptyRow)

  /** board.cpp's representation: the `taken` and `black` bit sets, as index sets. */
  datatype Bits = Bits(taken: set<int>, black: set<int>)

  predicate OnBoard(x: int, y: int) {
    0 <= x < 8 && 0 <= y < 8
  }

  /** The bit of cell `(x, y)` in board.cpp's 64-bit sets. */
  function Index(x: int, y: int): (i: int)
    requires OnBoard(x, y)
    ensures 0 <= i < 64
  {
    x + 8 * y
  }

  lemma IndexCoords(x: int, y: int)
    requires OnBoard(x, y)
    ensures Index(x, y) % 8 == x && Index(x, y) / 8 == y
  {
  }

  /** Every index is the index of exactly one on-board coordinate. */
  lemma IndexOnto(i: int)
    requires 0 <= i < 64
    ensures OnBoard(i % 8, i / 8) && Index(i % 8, i / 8) == i
  {
  }

  lemma IndexInjective(x: int, y: int, x': int, y': int)
    requires OnBoard(x, y) && OnBoard(x', y')
    ensures Index(x, y) == Index(x', y') <==> x == x' && y == y'
  {
  }

  function At(b: Board, x: int, y: int): Cell
    requires OnBoard(x, y)
  {
    b[y][x]
  }

  /** The cell behind bit `i`. */
  function CellAt(b: Board, i: int): Cell
    requires 0 <= i < 64
  {
    b[i / 8][i % 8]
  }

  lemma CellAtIndex(b: Board, x: int, y: int)
    requires OnBoard(x, y)
    ensures CellAt(b, Index(x, y)) == At(b, x, y)
  {
    IndexCoords(x, y);
  }

  /** Two boards that agree on every coordinate are equal. */
  lemma Extensionality(a: Board, b: Board)
    requires forall x, y | OnBoard(x, y) :: At(a, x, y) == At(b, x, y)
    ensures a == b
  {
    forall y | 0 <= y < 8
      ensures a[y] == b[y]
    {
      forall x | 0 <= x < 8
        ensures a[y][x] == b[y][x]
      {
        assert At(a, x, y) == At(b, x, y);
      }
    }
  }

  /** The bit-set view of a position. */
  function ToBits(b: Board): (bits: Bits)
    ensures bits.black <= bits.taken
    ensures forall i :: i in bits.taken <==> 0 <= i < 64 && CellAt(b, i).Stone?
    ensures forall i :: i in bits.black <==> 0 <= i < 64 && CellAt(b, i) == Stone(Black)
  {
    Bits(set i | 0 <= i < 64 && CellAt(b, i).Stone?, set i | 0 <= i < 64 && CellAt(b, i) == Stone(Black))
  }

  /** The bit-set view, cell by cell. */
  lemma ToBitsAt(b: Board, x: int, y: int)
    requires OnBoard(x, y)
    ensures Index(x, y) in ToBits(b).taken <==> At(b, x, y).Stone?
    ensures Index(x, y) in ToBits(b).black <==> At(b, x, y) == Stone(Black)
  {
    CellAtIndex(b, x, y);
  }

  /** The cell two bit sets describe at bit `i`: taken and black is black,
      taken and not black is white, and a cell outside `taken` is empty. */
  function BitCell(bits: Bits, i: int): Cell {
    if i in bits.taken then (if i in bits.black then Stone(Black) else Stone(White)) else Empty
  }

  /** The position two bit sets describe. */
  function FromBits(bits: Bits): Board {
    seq(8, y requires 0 <= y < 8 => seq(8, x requires 0 <= x < 8 => BitCell(bits, Index(x, y))))
  }

  /** The position two bit sets describe, cell by cell. */
  lemma FromBitsAt(bits: Bits)
    ensures forall x, y | OnBoard(x, y) :: At(FromBits(bits), x, y) == BitCell(bits, Index(x, y))
  {
  }

  /** Bit sets a board can hold: 64-bit indices, and `black` only where `taken`. */
  predicate ValidBits(bits: Bits) {
    bits.black <= bits.taken && forall i | i in bits.taken :: 0 <= i < 64
  }

  /** Every valid pair of bit sets survives conversion to a position and back. */
  lemma BitsFromBits(bits: Bits)
    requires ValidBits(bits)
    ensures ToBits(FromBits(bits)) == bits
  {
    var b := FromBits(bits);
    FromBitsAt(bits);
    forall i
      ensures (i in ToBits(b).taken <==> i in bits.taken) && (i in ToBits(b).black <==> i in bits.black)
    {
      if 0 <= i < 64 {
        IndexOnto(i);
        CellAtIndex(b, i % 8, i / 8);
      }
    }
  }

  lemma {:induction false} BitsRoundTrip(b: Board)
    ensures FromBits(ToBits(b)) == b
  {
    var c := FromBits(ToBits(b));
    FromBitsAt(ToBits(b));
    forall x, y | OnBoard(x, y)
      ensures At(c, x, y) == At(b, x, y)
    {
      ToBitsAt(b, x, y);
      CellCases(At(b, x, y));
    }
    Extensionality(c, b);
  }

  /** `Board()`: sets bits 27, 28, 35 and 36 of `taken` and bits 28 and 35 of `black`. */
  function Initial(): (b: Board)
    ensures forall x, y | OnBoard(x, y) ::
      At(b, x, y) == (if (x, y) == (4, 3) || (x, y) == (3, 4) then Stone(Black)
                      else if (x, y) == (3, 3) || (x, y) == (4, 4) then Stone(White)
                      else Empty)
  {
    var bits := Bits({3 + 8 * 3, 3 + 8 * 4, 4 + 8 * 3, 4 + 8 * 4}, {4 + 8 * 3, 3 + 8 * 4});
    FromBitsAt(bits);
    FromBits(bits)
  }

  /** `copy()`: a fresh board whose two bit sets are assigned from this one. */
  function Copy(b: Board): (c: Board)
    ensures c == b
  {
    BitsRoundTrip(b);
    FromBits(ToBits(b))
  }

  function Occupied(b: Board, x: int, y: int): bool
    requires OnBoard(x, y)
  {
    At(b, x, y).Stone?
  }

  /** `occupied(x, y)` is the `taken` bit of the cell. */
  lemma OccupiedMatchesBits(b: Board, x: int, y: int)
    requires OnBoard(x, y)
    ensures Occupied(b, x, y) <==> Index(x, y) in ToBits(b).taken
  {
    ToBitsAt(b, x, y);
  }

  /** `get(side, x, y)`: the cell holds a stone of `side`. */
  function Get(b: Board, side: Side, x: int, y: int): bool
    requires OnBoard(x, y)
  {
    At(b, x, y) == Stone(side)
  }

  /** `get` as board.cpp computes it from the bit sets: the cell is taken
      and its `black` bit says whether `side` is black. */
  lemma GetMatchesBits(b: Board, side: Side, x: int, y: int)
    requires OnBoard(x, y)
    ensures Get(b, side, x, y) <==>
            Index(x, y) in ToBits(b).taken && (Index(x, y) in ToBits(b).black <==> side == Black)
    ensures Get(b, side, x, y) ==> Occupied(b, x, y)
  {
    ToBitsAt(b, x, y);
    CellCases(At(b, x, y));
    if side == Black {
    } else {
      assert side == White;
    }
  }

  /** Every occupied cell is owned by exactly one side. */
  lemma OccupiedOwnedByOne(b: Board, x: int, y: int)
    requires OnBoard(x, y)
    ensures Occupied(b, x, y) <==> Get(b, Black, x, y) || Get(b, White, x, y)
    ensures !(Get(b, Black, x, y) && Get(b, White, x, y))
  {
    CellCases(At(b, x, y));
  }

  /** `set(side, x, y)`: the cell now holds a stone of `side`; no other cell changes. */
  function Set(b: Board, side: Side, x: int, y: int): (r: Board)
    requires OnBoard(x, y)
    ensures Get(r, side, x, y)
  {
    b[y := b[y][x := Stone(side)]]
  }

  /** `set` changes no cell other than its target. */
  lemma SetFrame(b: Board, side: Side, x: int, y: int, x': int, y': int)
    requires OnBoard(x, y) && OnBoard(x', y')
    ensures At(Set(b, side, x, y), x', y') == if (x', y') == (x, y) then Stone(side) else At(b, x', y')
  {
  }

  /** `set` as board.cpp performs it: the `taken` bit is set and the
      `black` bit is set or cleared according to `side`. */
  lemma SetMatchesBits(b: Board, side: Side, x: int, y: int)
    requires OnBoard(x, y)
    ensures ToBits(Set(b, side, x, y)).taken == ToBits(b).taken + {Index(x, y)}
    ensures ToBits(Set(b, side, x, y)).black ==
            if side == Black then ToBits(b).black + {Index(x, y)} else ToBits(b).black - {Index(x, y)}
  {
    var r := Set(b, side, x, y);
    var t := Index(x, y);
    forall i | 0 <= i < 64
      ensures CellAt(r, i) == if i == t then Stone(side) else CellAt(b, i)
    {
      IndexOnto(i);
      IndexInjective(i % 8, i / 8, x, y);
    }
  }

  /** The cells `side` owns, as indices. */
  function Owned(b: Board, side: Side): set<int> {
    set i | 0 <= i < 64 && CellAt(b, i) == Stone(side)
  }

  /** `countBlack()`: the number of `black` bits. */
  function CountBlack(b: Board): int {
    |ToBits(b).black|
  }

  /** `countWhite()`: the number of `taken` bits minus the number of `black` bits. */
  function CountWhite(b: Board): int {
    |ToBits(b).taken| - |ToBits(b).black|
  }

  function Count(b: Board, side: Side): int {
    if side == Black then CountBlack(b) else CountWhite(b)
  }

  /** The number of stones on the board. */
  function Stones(b: Board): int {
    |ToBits(b).taken|
  }

  /** Each side's count is the number of cells it owns, and together they
      make up the `taken` count. */
  lemma CountIsOwned(b: Board)
    ensures Count(b, Black) == |Owned(b, Black)|
    ensures Count(b, White) == |Owned(b, White)|
    ensures CountBlack(b) + CountWhite(b) == Stones(b)
    ensures 0 <= Count(b, Black) && 0 <= Count(b, White) && Stones(b) <= 64
  {
    var bits := ToBits(b);
    assert bits.black == Owned(b, Black);
    assert bits.taken == Owned(b, Black) + Owned(b, White) by {
      forall i ensures i in bits.taken <==> i in Owned(b, Black) + Owned(b, White) {
        if 0 <= i < 64 { CellCases(CellAt(b, i)); }
      }
    }
    assert Owned(b, Black) * Owned(b, White) == {};
    BelowSize(bits.taken, 64);
    assert Below(bits.taken, 64) == bits.taken;
  }

  /** The members of `s` among the bits `0 .. n - 1`. */
  function Below(s: set<int>, n: int): set<int> {
    set i | i in s && 0 <= i < n
  }

  /** At most `n` bits lie below `n`. */
  lemma {:induction false} BelowSize(s: set<int>, n: nat)
    ensures |Below(s, n)| <= n
  {
    if n > 0 {
      BelowSize(s, n - 1);
      assert Below(s, n) <= Below(s, n - 1) + {n - 1};
      assert |Below(s, n - 1) + {n - 1}| <= n;
      SubsetSize(Below(s, n), Below(s, n - 1) + {n - 1});
    }
  }

  /** A board with an empty cell holds at most 63 stones. */
  lemma EmptyCellBound(b: Board, x: int, y: int)
    requires OnBoard(x, y)
    ensures Occupied(b, x, y) || Stones(b) <= 63
  {
    if !Occupied(b, x, y) {
      var f := Set(b, Black, x, y);
      SetMatchesBits(b, Black, x, y);
      OccupiedMatchesBits(b, x, y);
      CountIsOwned(f);
    }
  }

  lemma SubsetSize(a: set<int>, b: set<int>)
    requires a <= b
    ensures |a| <= |b|
  {
    assert b == a + (b - a);
  }

  lemma InitialCounts()
    ensures CountBlack(Initial()) == 2 && CountWhite(Initial()) == 2
    ensures ToBits(Initial()).taken == {27, 28, 35, 36}
  {
    var b := Initial();
    assert ToBits(b).taken == {27, 28, 35, 36} by {
      forall i ensures i in ToBits(b).taken <==> i in {27, 28, 35, 36} {
        if 0 <= i < 64 { IndexOnto(i); CellAtIndex(b, i % 8, i / 8); }
      }
    }
    assert ToBits(b).black == {28, 35} by {
      forall i ensures i in ToBits(b).black <==> i in {28, 35} {
        if 0 <= i < 64 { IndexOnto(i); CellAtIndex(b, i % 8, i / 8); }
      }
    }
  }

  /** `setBoard(data)`: clears both bit sets, then cell `i` goes into `taken`
      and `black` on a `'b'`, and into `taken` alone on a `'w'`. */
  function SetBoard(data: seq<char>): (b: Board)
    requires |data| >= 64
    ensures forall x, y | OnBoard(x, y) ::
      At(b, x, y) == (if data[Index(x, y)] == 'b' then Stone(Black)
                      else if data[Index(x, y)] == 'w' then Stone(White) else Empty)
  {
    var bits := Bits(set i | 0 <= i < 64 && (data[i] == 'b' || data[i] == 'w'),
                     set i | 0 <= i < 64 && data[i] == 'b');
    FromBitsAt(bits);
    FromBits(bits)
  }

  /** The grid `SetBoard` reads, with `'-'` for an empty cell. */
  function Render(b: Board): (data: seq<char>)
    ensures |data| == 64
  {
    seq(64, i requires 0 <= i < 64 => match CellAt(b, i)
                                       case Empty => '-'
                                       case Stone(Black) => 'b'
                                       case Stone(White) => 'w')
  }

  lemma SetBoardRender(b: Board)
    ensures SetBoard(Render(b)) == b
  {
    var c := SetBoard(Render(b));
    forall x, y | OnBoard(x, y)
      ensures At(c, x, y) == At(b, x, y)
    {
      CellAtIndex(b, x, y);
      CellCases(At(b, x, y));
    }
    Extensionality(c, b);
  }
}
