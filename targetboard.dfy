/** The target board: the vertical board on which a player records their own shots, a red
    peg for a hit and a white peg for a miss. */
module TargetBoards {
  import opened Wrappers
  import opened Boards

  /** The two pegs; an empty cell holds no peg at all. */
  const RedPeg: int := 1
  const WhitePeg: int := 2

  class TargetBoard {
    /** Cell (r, c) holds `Some(peg)` or `None`. */
    const cells: array2<Option<int>>

    predicate Valid()
      reads this
    {
      cells.Length0 == Size && cells.Length1 == Size
    }

    predicate Empty()
      requires Valid()
      reads this, cells
    {
      forall i, j :: 0 <= i < Size && 0 <= j < Size ==> cells[i, j] == None
    }

    constructor ()
      ensures Valid() && Empty() && fresh(cells)
    {
      cells := new Option<int>[Size, Size]((i, j) => None);
    }

    /** `markHit`: a red peg at (r, c), and nothing else changes. */
    method MarkHit(r: int, c: int)
      requires Valid() && OnBoard(r, c)
      modifies cells
      ensures cells[r, c] == Some(RedPeg)
      ensures forall i, j :: 0 <= i < Size && 0 <= j < Size && (i, j) != (r, c) ==> cells[i, j] == old(cells[i, j])
      ensures IsHit(r, c) && !IsEmpty(r, c)
    {
      cells[r, c] := Some(RedPeg);
    }

    /** `markMiss`: a white peg at (r, c), and nothing else changes. */
    method MarkMiss(r: int, c: int)
      requires Valid() && OnBoard(r, c)
      modifies cells
      ensures cells[r, c] == Some(WhitePeg)
      ensures forall i, j :: 0 <= i < Size && 0 <= j < Size && (i, j) != (r, c) ==> cells[i, j] == old(cells[i, j])
      ensures !IsHit(r, c) && !IsEmpty(r, c)
    {
      cells[r, c] := Some(WhitePeg);
    }

    /** `isHit`: a red peg, which in particular means the cell is not empty. */
    predicate IsHit(r: int, c: int)
      requires Valid() && OnBoard(r, c)
      reads this, cells
      ensures IsHit(r, c) ==> !IsEmpty(r, c)
    {
      cells[r, c] == Some(RedPeg)
    }

    /** `isEmpty`: no peg of either colour; on a board with no pegs every cell is empty. */
    predicate IsEmpty(r: int, c: int)
      requires Valid() && OnBoard(r, c)
      reads this, cells
      ensures IsEmpty(r, c) ==> cells[r, c] != Some(RedPeg) && cells[r, c] != Some(WhitePeg)
      ensures Empty() ==> IsEmpty(r, c)
    {
      cells[r, c] == None
    }
  }
}
