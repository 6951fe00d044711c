/** A ship. The ship class itself is not part of this model; the game uses it through its
    type name, its size, where and how it was placed, and a status entry per cell that
    becomes a red peg when that cell is hit (the display indexes it by
    `(r + c) - (loc_r + loc_c)`). A ship is sunk once every entry is a red peg. */
module Ships {
  import opened TargetBoards

  /** A status entry that carries no peg. */
  const NoPeg: int := 0

  /** Every cell of the ship has been hit. */
  predicate AllRed(status: seq<int>)
  {
    forall k :: 0 <= k < |status| ==> status[k] == RedPeg
  }

  /** The status after a hit on offset `k`; an offset outside the ship changes nothing. */
  function Marked(status: seq<int>, k: int): (s: seq<int>)
    ensures |s| == |status|
    ensures 0 <= k < |status| ==> s[k] == RedPeg
    ensures forall i :: 0 <= i < |status| && i != k ==> s[i] == status[i]
  {
    if 0 <= k < |status| then status[k := RedPeg] else status
  }

  class Ship {
    /** `getType()`: the name the game gives the ship ("Carrier", "Patrol Boat", ...). */
    const kind: string
    const size: nat
    var horizontal: bool
    var loc: (int, int)
    var status: seq<int>

    constructor (kind: string, size: nat)
      ensures this.kind == kind && this.size == size
      ensures status == seq(size, _ => NoPeg) && !horizontal && loc == (0, 0)
    {
      this.kind := kind;
      this.size := size;
      horizontal := false;
      loc := (0, 0);
      status := seq(size, _ => NoPeg);
    }

    /** Where cell (r, c) sits along the ship. */
    function Offset(r: int, c: int): int
      reads this
    {
      (r + c) - (loc.0 + loc.1)
    }

    /** `isSunk()`. */
    predicate IsSunk()
      reads this
    {
      AllRed(status)
    }

    /** `markHitAt(r, c)`: a red peg on the ship's own record of cell (r, c). */
    method MarkHitAt(r: int, c: int)
      modifies this
      ensures status == Marked(old(status), old(Offset(r, c)))
      ensures loc == old(loc) && horizontal == old(horizontal)
    {
      var k := (r + c) - (loc.0 + loc.1);
      if 0 <= k < |status| {
        status := status[k := RedPeg];
      }
    }
  }

  /** Hitting the same cell twice is the same as hitting it once. */
  lemma MarkedTwice(status: seq<int>, k: int)
    ensures Marked(Marked(status, k), k) == Marked(status, k)
  {
  }

  /** A hit sinks the ship exactly when every other cell was already hit; a sunk ship stays
      sunk. */
  lemma SinkingHit(status: seq<int>, k: int)
    requires 0 <= k < |status|
    ensures AllRed(Marked(status, k)) <==> forall i :: 0 <= i < |status| && i != k ==> status[i] == RedPeg
    ensures AllRed(status) ==> AllRed(Marked(status, k))
  {
    if forall i :: 0 <= i < |status| && i != k ==> status[i] == RedPeg {
      forall i | 0 <= i < |status|
        ensures Marked(status, k)[i] == RedPeg
      {
      }
    }
  }

  /** A fresh ship of size at least one is afloat. */
  lemma FreshShipAfloat(size: nat)
    requires size >= 1
    ensures !AllRed(seq(size, _ => NoPeg))
  {
    assert seq(size, _ => NoPeg)[0] == NoPeg;
  }
}
