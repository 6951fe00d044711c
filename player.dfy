/** A player: a name, a score, an ocean board with their ships and a target board with
    their shots. */
module Players {
  import opened Wrappers
  import opened Numerals
  import opened Boards
  import opened Ships
  import opened TargetBoards
  import opened OceanBoards

  /** How `placeShip` reads a location such as "a1" or "j10": the row is the letter's
      distance from 'a' and the column is the number after it, less one. No range check:
      `int(loc[1:])` failing (an empty or one-character string, or no number after the
      letter) is the only way to fail here. */
  function ParseLoc(loc: string): (rc: Option<(int, int)>)
    ensures rc.Some? ==> |loc| >= 2
    ensures rc.Some? <==> |loc| >= 1 && ParseInt(loc[1..], 10).Some?
    ensures rc.Some? ==> rc.value == ((loc[0] as int) - ('a' as int), ParseInt(loc[1..], 10).value - 1)
  {
    if |loc| == 0 then None
    else
      match ParseInt(loc[1..], 10)
      case None => None
      case Some(n) => Some(((loc[0] as int) - ('a' as int), n - 1))
  }

  /** The location text of cell (r, c): the letter r places after 'a', then c + 1. */
  function CellName(r: nat, c: nat): string
    requires r < 26
  {
    [(('a' as int) + r) as char] + Digits(c + 1, 10)
  }

  /** Reading a cell's name gives the cell back. */
  lemma ParseCellName(r: nat, c: nat)
    requires r < 26
    ensures ParseLoc(CellName(r, c)) == Some((r, c))
  {
    var name := CellName(r, c);
    assert name[1..] == Digits(c + 1, 10);
    DigitsValueOfDigits(c + 1, 10);
  }

  class Player {
    var name: string
    var score: int
    var ocean: OceanBoard
    var target: TargetBoard

    predicate Valid()
      reads this, ocean, target
    {
      ocean.Valid() && target.Valid()
    }

    constructor (name: string)
      ensures Valid() && this.name == name && score == 0
      ensures fresh(ocean) && fresh(ocean.cells) && fresh(target) && fresh(target.cells)
      ensures ocean.ships == [] && target.Empty()
      ensures forall i, j :: 0 <= i < Size && 0 <= j < Size ==> ocean.cells[i, j] == None
    {
      this.name := name;
      score := 0;
      ocean := new OceanBoard();
      target := new TargetBoard();
    }

    /** `placeShip(ship, loc, orientation)`: False when the location does not parse or the
        orientation is neither 'h' nor 'v' (the ocean is not touched), otherwise the
        ocean's own verdict. */
    method PlaceShip(ship: Ship, loc: string, orientation: string) returns (placed: bool)
      requires Valid()
      modifies ocean, ocean.cells, ship
      ensures Valid()
      ensures ParseLoc(loc).None? || !IsOrientation(orientation) ==>
        !placed && ocean.ships == old(ocean.ships) &&
        ship.loc == old(ship.loc) && ship.horizontal == old(ship.horizontal) &&
        forall i, j :: 0 <= i < Size && 0 <= j < Size ==> ocean.cells[i, j] == old(ocean.cells[i, j])
      ensures ParseLoc(loc).Some? && IsOrientation(orientation) ==>
        var (r, c) := ParseLoc(loc).value;
        && placed == old(ocean.CanPlace(r, c, ship.size, orientation))
        && (placed ==>
              && ocean.ships == old(ocean.ships) + [ship]
              && ship.loc == (r, c) && ship.horizontal == (orientation == "h")
              && forall i, j :: 0 <= i < Size && 0 <= j < Size ==>
                   ocean.cells[i, j] == if Covers(r, c, ship.size, orientation == "h", i, j) then Some(ship) else old(ocean.cells[i, j]))
        && (!placed ==>
              && ocean.ships == old(ocean.ships)
              && forall i, j :: 0 <= i < Size && 0 <= j < Size ==> ocean.cells[i, j] == old(ocean.cells[i, j]))
    {
      var n := if |loc| == 0 then None else ParseInt(loc[1..], 10);
      if n.None? {
        return false;
      }
      var c := n.value - 1;
      var r := (loc[0] as int) - ('a' as int);
      if orientation != "h" && orientation != "v" {
        return false;
      }
      placed := ocean.PlaceShip(ship, r, c, orientation);
    }

    /** `shipAt(r, c)`: the type of the ship on the cell, or `None`. */
    function ShipAt(r: int, c: int): (kind: Option<string>)
      requires Valid() && OnBoard(r, c)
      reads this, ocean, ocean.cells, target
      ensures kind.None? <==> ocean.cells[r, c].None?
      ensures kind.Some? ==> kind.value == ocean.cells[r, c].value.kind
    {
      match ocean.cells[r, c]
      case None => None
      case Some(ship) => Some(ship.kind)
    }

    /** `shotAt(r, c)`: on an empty cell (False, False, None) and nothing changes; on a ship
        the ship records the hit and the answer is (True, sunk now, its type). */
    method ShotAt(r: int, c: int) returns (hit: bool, sunk: bool, kind: Option<string>)
      requires Valid() && OnBoard(r, c)
      modifies if ocean.cells[r, c].Some? then {ocean.cells[r, c].value} else {}
      ensures old(ocean.cells[r, c]).None? ==> !hit && !sunk && kind.None?
      ensures old(ocean.cells[r, c]).Some? ==>
        var ship := old(ocean.cells[r, c]).value;
        && hit && kind == Some(ship.kind)
        && ship.status == Marked(old(ship.status), old(ship.Offset(r, c)))
        && ship.loc == old(ship.loc) && ship.horizontal == old(ship.horizontal)
        && sunk == ship.IsSunk()
    {
      var piece := ocean.cells[r, c];
      if piece.None? {
        return false, false, None;
      }
      var ship := piece.value;
      ship.MarkHitAt(r, c);
      return true, ship.IsSunk(), Some(ship.kind);
    }

    /** `markTargetHit(r, c)`: a red peg on this player's target board. */
    method MarkTargetHit(r: int, c: int)
      requires Valid() && OnBoard(r, c)
      modifies target.cells
      ensures Valid() && target.cells[r, c] == Some(RedPeg) && target.IsHit(r, c)
      ensures forall i, j :: 0 <= i < Size && 0 <= j < Size && (i, j) != (r, c) ==>
        target.cells[i, j] == old(target.cells[i, j])
    {
      target.MarkHit(r, c);
    }

    /** `markTargetMiss(r, c)`: a white peg on this player's target board. */
    method MarkTargetMiss(r: int, c: int)
      requires Valid() && OnBoard(r, c)
      modifies target.cells
      ensures Valid() && target.cells[r, c] == Some(WhitePeg) && !target.IsHit(r, c) && !target.IsEmpty(r, c)
      ensures forall i, j :: 0 <= i < Size && 0 <= j < Size && (i, j) != (r, c) ==>
        target.cells[i, j] == old(target.cells[i, j])
    {
      target.MarkMiss(r, c);
    }

    /** `allShipsSunk()`: asks the ocean board. */
    method AllShipsSunk() returns (sunk: bool)
      requires Valid()
      ensures sunk <==> forall k :: 0 <= k < |ocean.ships| ==> ocean.ships[k].IsSunk()
    {
      sunk := ocean.AllShipsSunk();
    }

    /** `updateScore(num)`: the score grows by `num`; nothing else changes. */
    method UpdateScore(num: int)
      modifies this
      ensures score == old(score) + num
      ensures name == old(name) && ocean == old(ocean) && target == old(target)
    {
      score := score + num;
    }

    /** `resetUnit()`: two fresh, empty 10 x 10 boards; name and score stay. */
    method ResetUnit()
      modifies this
      ensures Valid() && name == old(name) && score == old(score)
      ensures fresh(ocean) && fresh(ocean.cells) && fresh(target) && fresh(target.cells)
      ensures ocean.ships == [] && target.Empty()
      ensures forall i, j :: 0 <= i < Size && 0 <= j < Size ==> ocean.cells[i, j] == None
    {
      ocean := new OceanBoard();
      target := new TargetBoard();
    }
  }
}
