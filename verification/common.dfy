/**
 Value types shared by the board and the player: the two sides, optional
 values, and moves. A move is either a concrete cell or the pass (the C++ engine's
 `NULL` move).
 */
module Common {

  /** The two sides of the game. */
  datatype Side = Black | White

  /** The other side; player.cpp and board.cpp write it as `(side == BLACK) ? WHITE : BLACK`. */
  function Opponent(s: Side): (o: Side)
    ensures o != s
    ensures s == Black <==> o == White
  {
    if s == Black then White else Black
  }

  lemma OpponentInvolutive(s: Side)
    ensures Opponent(Opponent(s)) == s
    ensures Opponent(s) != s
  {
  }

  datatype Option<+T> = None | Some(value: T)

  /** A cell coordinate; the C++ engine's `Move(x, y)` object. */
  datatype Pos = Pos(x: int, y: int)

  /** `None` is the pass (a NULL `Move *`). */
  type Move = Option<Pos>
}
