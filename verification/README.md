# Othello board and one-ply player

A Dafny model of the engine's two core classes.

- **`Board`** (board.cpp) holds an 8x8 Othello position. It checks and plays moves, counts stones and computes a positional score.
- **`Player`** (player.cpp) keeps its own board and applies the opponent's move. It picks a reply by looking one move ahead: it assumes the opponent answers with the move that leaves the player the fewest stones. It then keeps the move after which it holds the most stones.

## Modules

- `Common` (common.dfy): sides, the optional move (`None` is the engine's `NULL` move), cell coordinates.
- `Boards` (board.dfy): the position, its bit-set view, and the basic operations.
  - The position is eight rows of eight cells. Cell `(x, y)` is at bit `x + 8*y` of board.cpp's `taken` and `black` bit sets; the model exposes those sets as a derived view, `Bits`.
  - Basic operations: `occupied`, `get`, `set`, `copy`, the counts, and the test loader `setBoard`.
- `Rules` (rules.dfy): `checkMove`, `hasMoves`, `isDone` and `doMove`.
  - `doMove` is modelled as board.cpp performs it: it walks the eight directions in board.cpp's order (`dx` outer, `dy` inner). Each direction flips on the board as earlier directions left it.
  - It is proved equal to the textbook rule: every cell inside a bracketed opponent run turns, all at once. `Flipped` describes those cells through the walk, and `Bracketed` through runs of opponent stones capped by the mover's stone; the two are proved equivalent.
- `Scores` (scores.dfy): `scoreBlack` and `scoreWhite` written as board.cpp's bonus loops. Each is proved equal to a per-cell weight table summed over the side's stones.
- `Players` (player.dfy): the two constructors, `pickMove` and `doMove`.
  - The three loops of `pickMove` are written once, generically: the move scan, the opponent's minimum search and the player's maximum search.
  - They are then instantiated with legality and stone counts.
  - Boards are values, so the trial moves of `pickMove` cannot change the player's board; only `doMove` replaces it.

## Model

| member | source | states |
|---|---|---|
| Common.Opponent | board.cpp:84 | the other side is different from the side, and Black's other side is White |
| Common.OpponentInvolutive | player.cpp:20 | taking the other side twice gives back the side |
| Boards.Initial | board.cpp:6-13 | the starting position has black on (4,3) and (3,4), white on (3,3) and (4,4), and every other cell empty |
| Boards.InitialCounts | board.cpp:6-13 | the starting position has two black and two white stones, and `taken` is bits 27, 28, 35 and 36 |
| Boards.BitsRoundTrip | board.cpp:24-29 | rebuilding a position from its `taken`/`black` bit sets gives back the same position |
| Boards.BitsFromBits | board.cpp:24-29 | any pair of 64-bit sets with `black` inside `taken` survives conversion to a position and back, so the cell view loses nothing of the bit sets `copy` assigns |
| Boards.Copy | board.cpp:24-29 | a board built from the copied `black` and `taken` sets is the original position |
| Boards.Occupied | board.cpp:31-33 | the cell test `occupied`; its contract is in Boards.OccupiedMatchesBits (the `taken` bit is set) and Boards.OccupiedOwnedByOne (one side owns the cell) |
| Boards.Get | board.cpp:35-37 | the cell test `get(side)`; its contract is in Boards.GetMatchesBits (the bit-set test on `taken` and `black`) and Boards.OccupiedOwnedByOne (no cell is owned by both sides) |
| Boards.Set | board.cpp:39-42 | afterwards the side holds the cell; the rest of its contract is in Boards.SetFrame (no other cell changes) and Boards.SetMatchesBits (the bit updates) |
| Boards.OccupiedMatchesBits | board.cpp:31-33 | a cell is occupied iff its bit is set in `taken` |
| Boards.GetMatchesBits | board.cpp:35-37 | `get(side)` holds iff the cell is taken and its `black` bit agrees with whether `side` is black; `get` implies occupied |
| Boards.OccupiedOwnedByOne | board.cpp:31-37 | a cell is occupied iff one side owns it, and no cell is owned by both |
| Boards.SetFrame | board.cpp:39-42 | `set` puts the side's stone on the target cell and changes no other cell |
| Boards.SetMatchesBits | board.cpp:39-42 | `set` adds the cell's bit to `taken` and sets or clears its `black` bit according to the side |
| Boards.Count | board.cpp:148-150 | `count(side)`; its contract is in Boards.CountIsOwned and Scores.CountIsTally |
| Boards.CountBlack | board.cpp:155-157 | the black count; its contract is in Boards.CountIsOwned (the number of cells Black owns) and Scores.CountIsTally |
| Boards.CountWhite | board.cpp:162-164 | the white count; its contract is in Boards.CountIsOwned (the number of cells White owns) and Scores.CountIsTally |
| Boards.CountIsOwned | board.cpp:148-164 | each side's count is the number of cells it owns, and the two counts add up to the stones on the board |
| Boards.SetBoard | board.cpp:239-250 | after loading, a cell is black on `'b'`, white on `'w'` and empty on any other character |
| Boards.SetBoardRender | board.cpp:239-250 | loading the 64-character rendering of a position restores that position |
| Boards.OnBoard | board.cpp:44-46 | `onBoard`: both coordinates lie in 0 to 7; a predicate with no contract of its own, used as the guard in every cell operation and walk |
| Rules.Walk | board.cpp:93-96 | the walking loop stops on a cell that is off the board or not the walked side's, and it passes no cell iff the first cell already fails |
| Rules.Captures | board.cpp:89-99 | the capture test of one direction in `checkMove`; its contract is in Rules.CapturesIffBrackets |
| Rules.CapturesIffBrackets | board.cpp:89-99 | the walk of `checkMove` succeeds in a direction iff one or more opponent stones are followed by one of the mover's stones |
| Rules.LegalAt | board.cpp:77-102 | the cell case of `checkMove`; its contract is in Rules.LegalIffFlips and Rules.OccupiedIllegal |
| Rules.CheckMove | board.cpp:73-103 | `checkMove`; a pass is legal iff no cell is (Rules.PassIffNoMoves), and a cell move is legal iff it is on the board, empty and flips a stone (Rules.LegalIffFlips, Rules.OccupiedIllegal) |
| Rules.HasMoves | board.cpp:60-68 | `hasMoves`; its contract is in Rules.HasMovesIff |
| Rules.HasMovesIff | board.cpp:60-68 | `hasMoves(side)` holds iff some cell is a legal move for `side` |
| Rules.PassIffNoMoves | board.cpp:76 | a pass is legal iff no cell of the board is a legal move |
| Rules.OccupiedIllegal | board.cpp:82 | no move onto an occupied cell is legal |
| Rules.LegalIffFlips | board.cpp:73-103 | a move onto an on-board cell is legal iff the cell is empty and the move flips at least one stone |
| Rules.IsDone | board.cpp:53-55 | `isDone`; its contract is in Rules.IsDoneIff and Rules.FullBoardIsDone |
| Rules.IsDoneIff | board.cpp:53-55 | the game is over iff neither side has a legal move, which is when a pass is legal for both |
| Rules.FullBoardIsDone | board.cpp:53-55 | a board with 64 stones is finished |
| Rules.DoMove | board.cpp:108-143 | `doMove`; a pass or an illegal move changes nothing (Rules.DoMoveIgnored); a legal move is described by Rules.DoMoveSpec, Rules.DoMoveCell, Rules.DoMoveLegal, Rules.DoMoveTaken, Rules.DoMoveGains, Rules.DoMoveLoses and Rules.DoMoveCounts |
| Rules.DoMoveIgnored | board.cpp:108-113 | a pass or an illegal move leaves the board unchanged |
| Rules.FlipRun | board.cpp:130-138 | the flipping loop of one direction; its contract is in Rules.FlipRunSpec |
| Rules.FlipDir | board.cpp:122-139 | one direction of `doMove`; its contract is in Rules.FlipDirSpec |
| Rules.FlipAll | board.cpp:118-141 | the eight directions of `doMove` in order; its contract is in Rules.FlippedBeforeAll and Rules.FlipAllSpec |
| Rules.FlipRunSpec | board.cpp:130-138 | the flipping loop turns exactly the opponent run the walk passes and leaves every other cell alone |
| Rules.FlipDirSpec | board.cpp:122-139 | one direction of `doMove` turns its run iff the run is bracketed by the mover's stone, and otherwise changes nothing |
| Rules.FlippedBeforeAll | board.cpp:118-121 | the cells flipped by board.cpp's eight directions are exactly the cells flipped by some direction |
| Rules.FlipAllSpec | board.cpp:118-141 | flipping the directions one after another on the changing board gives the same cells as flipping every bracketed run of the original board at once |
| Rules.FlippedIffBracketed | board.cpp:118-141 | a cell is among those the walks of `doMove` flip iff, in some direction, it is one of the first `n` cells out from the target where `n` opponent stones are followed by one of the mover's stones |
| Rules.FlippedIsOpponent | board.cpp:129-135 | every flipped cell is on the board, holds an opponent stone beforehand, and is not the target |
| Rules.DoMoveSpec | board.cpp:108-143 | a legal move places the mover's stone on the target, turns exactly the bracketed cells, and keeps every other cell |
| Rules.DoMoveCell | board.cpp:108-143 | under a legal move, each non-target cell becomes the mover's iff it is flipped and otherwise keeps its contents; flipped cells were the opponent's |
| Rules.DoMoveLegal | board.cpp:108-143 | a legal move adds one stone, fills the target, changes only opponent stones into the mover's, fills no other empty cell, keeps the mover's stones, and turns at least one stone |
| Rules.DoMoveTaken | board.cpp:134-142 | a legal move sets exactly one new bit in `taken`, the target's |
| Rules.DoMoveGains | board.cpp:108-143 | after a legal move, the mover owns its old cells, the target and the flipped cells, and nothing else |
| Rules.DoMoveLoses | board.cpp:108-143 | after a legal move, the opponent owns its old cells minus the flipped ones, and every flipped cell was the opponent's |
| Rules.DoMoveCounts | board.cpp:108-164 | a legal move flips at least one stone; the mover's count grows by one plus the flips, and the opponent's count drops by the flips |
| Scores.ScoreBitsOwned | board.cpp:207-211 | the `black` set is the cells Black owns, and `taken & ~black` is the cells White owns |
| Scores.CountIsTally | board.cpp:155-164 | each side's count is the number of its stones over the 64 cells |
| Scores.EdgeBonusUnrolled | board.cpp:183-188 | the edge loop adds its weight once for each of the 24 non-corner edge cells a side holds |
| Scores.CPenaltyUnrolled | board.cpp:190-197 | the adjacent-to-corner loop subtracts 6 for each of the eight edge cells next to a corner |
| Scores.ScoreBlack | board.cpp:176-202 | `scoreBlack`; its contract is in Scores.BlackPositional and Scores.ScoreIsWeighted |
| Scores.ScoreWhite | board.cpp:207-233 | `scoreWhite`; its contract is in Scores.WhitePositional and Scores.ScoreIsWeighted |
| Scores.Score | board.cpp:169-171 | `score(side)`; its contract is in Scores.ScoreIsWeighted |
| Scores.BlackPositional | board.cpp:176-202 | black's bonuses and penalties sum to weights per cell: corner 10, C-square -3, other edge 3, X-square -10, interior 1 |
| Scores.WhitePositional | board.cpp:207-233 | white's bonuses and penalties sum to weights per cell: corner 3, C-square -4, other edge 2, X-square -10, interior 1 |
| Scores.ScoreIsWeighted | board.cpp:169-233 | `score(side)` equals the sum of that side's cell weights over its stones |
| Players.NewPlayer | player.cpp:8-22 | the new player has the given side, the opposite side as opponent, and the starting position |
| Players.NewPlayerOn | player.cpp:29-33 | the new player has the given side, the opposite side as opponent, and the given board |
| Players.Filter | player.cpp:118-128 | the move scan; its contract is in Players.FilterSpec |
| Players.LegalMoves | player.cpp:118-128 | `valid_moves`; its contract is in Players.LegalMovesSpec |
| Players.FilterSpec | player.cpp:118-128 | the scan keeps exactly the accepted cells, each once, in `x`-outer `y`-inner order, and keeps none iff no cell is accepted |
| Players.LegalMovesSpec | player.cpp:118-128 | `valid_moves` holds every legal move and nothing else, in scan order, and is empty iff `hasMoves` is false |
| Players.MinStep | player.cpp:170-178 | one step of the opponent's search never raises the best score, ends no higher than an accepted reply's count, and changes the best only to that reply, on a strictly lower count |
| Players.MinScan | player.cpp:162-183 | the opponent's minimum search; its contract is in Players.MinScanSpec and Players.MinScanFirst |
| Players.MinScanSpec | player.cpp:162-183 | the opponent search never ends above its start and changes its result only on a strictly lower score; the result is no worse than any candidate and strictly better than every earlier candidate |
| Players.MinScanFirst | player.cpp:162-183 | started above every score, the minimum search finds nothing iff there is no candidate, and otherwise finds the first minimum in scan order |
| Players.MaxScan | player.cpp:190-194 | the player's maximum search; its contract is in Players.MaxScanSpec |
| Players.MaxScanSpec | player.cpp:190-194 | the player's search never ends below its start and changes its result only on a strictly higher score; the result is no worse than any candidate and strictly better than every earlier candidate |
| Players.Choose | player.cpp:133-194 | the choice over the candidates; its contract is in Players.ChooseFirst |
| Players.ChooseFirst | player.cpp:133-194 | when every candidate scores above the starting score, the choice passes iff there are no candidates, and otherwise is the first maximum |
| Players.ReplyCount | player.cpp:166-177 | our count after one opponent reply on a copy of the working board; its contract is in Players.ReplyCountBounds |
| Players.ReplyCountBounds | player.cpp:166-177 | the count left to us after any reply, the value compared against `score_min`, lies between 0 and 64 |
| Players.WorstReply | player.cpp:162-183 | `their_m`; its contract is in Players.WorstReplySpec and Players.FirstWorstUnique |
| Players.WorstReplySpec | player.cpp:162-183 | with sound limits, the opponent's reply is missing iff the opponent has no legal move; otherwise it is the first legal reply that leaves the player fewest stones |
| Players.FirstWorstUnique | player.cpp:174-177 | at most one reply is the first worst reply |
| Players.Outcome | player.cpp:157-190 | the count compared against `score_max`; its contract is in Players.OutcomeBounds and Players.OutcomeSpec |
| Players.OutcomeBounds | player.cpp:186-190 | the count after our move and the assumed reply lies between 0 and 64 |
| Players.OutcomeSpec | player.cpp:186-190 | with sound limits, a candidate's outcome is our count after it alone when the opponent has no reply, and otherwise our count after the opponent's first worst reply |
| Players.PickMove | player.cpp:115-205 | `pickMove`; its contract is in Players.PickMovePass, Players.PickMoveSingle, Players.PickMoveBest and Players.PickMoveLegal |
| Players.PickMovePass | player.cpp:133-138 | `pickMove` returns `NULL` iff the player has no legal move, whatever the limits |
| Players.PickMoveSingle | player.cpp:133-135 | with exactly one legal move, `pickMove` returns it |
| Players.PickMoveBest | player.cpp:115-205 | with sound limits and some legal move, `pickMove` returns the first legal move in scan order with the highest count after the opponent's worst reply |
| Players.PickMoveLegal | player.cpp:144-194 | with sound limits, the move `pickMove` returns passes `checkMove`: a legal move, or the pass when there is none, never the `(-1, -1)` placeholder |
| Players.FirstBestUnique | player.cpp:190-194 | at most one move is the first best move |
| Players.PlayerDoMove | player.cpp:58-113 | `Player::doMove`; its contract is in Players.PlayerDoMoveSpec |
| Players.PlayerDoMoveSpec | player.cpp:58-113 | a turn applies the opponent's move, keeps both sides, passes iff no move is left, and otherwise plays the first best move, adding one stone |

## Left out

- Logging to `std::cerr` is left out. It has no effect on the result.
- Heap management is left out: `new`, `delete`, the destructors and the leaked work boards. Boards are values in the model, so `copy` returns an equal value.
- Players.NewPlayerOn: `Player(side, b)` keeps the caller's pointer (`board = b`), so the player shares the caller's board. `Player::doMove` then changes that board in place, and `~Player` deletes it. The model stores the board as a value, so it does not model that the caller's board changes too.
- The commented-out random move selector in `Player::doMove` is not code that runs, so it is not modelled.
- `msLeft`, `testingMinimax` and `pickMove`'s `depth` argument are left out. None of them affects the move chosen.
- The 64-bit sets are modelled as sets of bit indices over a grid of cells. `count()` on a bit set is the size of the index set.
- Off-board coordinates are outside the model. `occupied`, `get` and `set` require an on-board cell, because board.cpp's bit-set indexing is unchecked there.
- Rules.CheckMove and Rules.DoMove: the model treats a move to an off-board cell as illegal and ignores it. board.cpp does not: `checkMove` never tests `onBoard(X, Y)` on the target, and `occupied(X, Y)` reads bit `X + 8*Y`, which can be the bit of a real cell. The walks then start from the off-board point. So the model differs from board.cpp on such moves. For example, take Black to move with a black stone on (6, 3), a white stone on (7, 3) and (0, 4) empty. board.cpp accepts `Move(8, 3)`, because bit 32 is cell (0, 4) and the walk west from (8, 3) captures (7, 3). The model rejects it. `pickMove` only proposes on-board cells, so this matters only for an off-board move passed in as the opponent's.
- `TINY_SCORE` and `HUGE_SCORE` are declared in a header that is not part of this model. They are a `Limits` parameter. `Sound` says they lie below and above every possible stone count.
- Players.WorstReplySpec: requires `Sound` limits. With an unsound `HUGE_SCORE` the opponent's search can miss replies that exist. The model computes that case but proves nothing about it.
- Players.OutcomeSpec: requires `Sound` limits, for the same reason.
- Players.PickMoveBest: requires `Sound` limits. With an unsound `TINY_SCORE`, `pickMove` can return the placeholder `Move(-1, -1)` when there are two or more legal moves.
- Players.PickMoveLegal: requires `Sound` limits, for the same reason.
- Players.PlayerDoMoveSpec: requires `Sound` limits, because it rests on Players.PickMoveBest.
- The opponent's placeholder `Move(-1, -1)` (`their_m` before any reply is found) is modelled as `None`. The `getX() != -1` test of player.cpp becomes `Some?`.
- The headers that board.cpp and player.cpp include are not part of this model. The `Side`, `Move` and board layout come from the uses in board.cpp and player.cpp.
- The white weight of a C-square is -4, as the code computes it (count 1, edge 1, penalty 6). The code's comment says "-3 total", which holds only for black. The model follows the code.
