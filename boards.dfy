/** What the game's boards have in common. `Board` itself is not part of this model: every
    board the game builds is 10 x 10, cells are addressed by (row, column) from 0, and an
    empty cell holds Python's `None`. */
module Boards {
  const Size: int := 10

  predicate OnBoard(r: int, c: int)
  {
    0 <= r < Size && 0 <= c < Size
  }
}
