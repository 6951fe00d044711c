/** The ocean board: the horizontal board holding a player's own ships. */
module OceanBoards {
  import opened Wrappers
  import opened Boards
  import opened Ships

  /** The cells a ship of `size` covers from (r, c): along row r when horizontal, down
      column c otherwise. */
  predicate Covers(r: int, c: int, size: int, horizontal: bool, i: int, j: int)
  {
    if horizontal then i == r && c <= j < c + size else j == c && r <= i < r + size
  }

  predicate IsOrientation(orientation: string)
  {
    orientation == "h" || orientation == "v"
  }

  class OceanBoard {
    /** Cell (r, c) holds the ship covering it, or `None`. */
    const cells: array2<Option<Ship>>
    /** The ships placed so far, in order. */
    var ships: seq<Ship>

    predicate Valid()
      reads this
    {
      cells.Length0 == Size && cells.Length1 == Size
    }

    constructor ()
      ensures Valid() && fresh(cells) && ships == [] && Registered()
      ensures forall i, j :: 0 <= i < Size && 0 <= j < Size ==> cells[i, j] == None
    {
      cells := new Option<Ship>[Size, Size]((i, j) => None);
      ships := [];
    }

    /** The ships standing on some cell. */
    ghost function Occupants(): set<Ship>
      requires Valid()
      reads this, cells
    {
      set i, j | 0 <= i < Size && 0 <= j < Size && cells[i, j].Some? :: cells[i, j].value
    }

    /** Every ship standing on a cell is one of the placed `ships`. */
    ghost predicate Registered()
      requires Valid()
      reads this, cells
    {
      forall i, j :: 0 <= i < Size && 0 <= j < Size && cells[i, j].Some? ==> cells[i, j].value in ships
    }

    /** Every cell a ship of `size` would cover from (r, c) is on the board and empty. */
    ghost predicate Free(r: int, c: int, size: nat, horizontal: bool)
      requires Valid()
      reads this, cells
    {
      OnBoard(r, c) &&
      (if horizontal then c + size <= Size else r + size <= Size) &&
      forall i, j :: OnBoard(i, j) && Covers(r, c, size, horizontal, i, j) ==> cells[i, j] == None
    }

    /** When `placeShip` answers True: the start is on the board and either the
        orientation is neither 'h' nor 'v' (nothing is placed) or the ship fits on
        empty cells. */
    ghost predicate CanPlace(r: int, c: int, size: nat, orientation: string)
      requires Valid()
      reads this, cells
    {
      OnBoard(r, c) && (IsOrientation(orientation) ==> Free(r, c, size, orientation == "h"))
    }

    /** `placeShip`: all checks come before any write; a placement fills exactly the
        covered cells with the ship, records where and how it lies, and appends it once. */
    method PlaceShip(ship: Ship, r: int, c: int, orientation: string) returns (placed: bool)
      requires Valid()
      modifies this, cells, ship
      ensures Valid()
      ensures placed == old(CanPlace(r, c, ship.size, orientation))
      ensures placed && IsOrientation(orientation) ==>
        && ships == old(ships) + [ship]
        && ship.loc == (r, c) && ship.horizontal == (orientation == "h")
        && (forall i, j :: 0 <= i < Size && 0 <= j < Size ==>
              cells[i, j] == if Covers(r, c, ship.size, orientation == "h", i, j) then Some(ship) else old(cells[i, j]))
      ensures !placed || !IsOrientation(orientation) ==>
        && ships == old(ships)
        && ship.loc == old(ship.loc) && ship.horizontal == old(ship.horizontal)
        && (forall i, j :: 0 <= i < Size && 0 <= j < Size ==> cells[i, j] == old(cells[i, j]))
      ensures ship.status == old(ship.status)
      ensures forall i, j :: 0 <= i < Size && 0 <= j < Size && old(cells[i, j]).Some? ==> cells[i, j] == old(cells[i, j])
      ensures old(Registered()) ==> Registered()
    {
      if !(0 <= r <= 9 && 0 <= c <= 9) {
        return false;
      }
      if orientation == "v" {
        if r < 0 || r + ship.size > 10 {
          return false;
        }
        var free := ColumnFree(r, c, ship.size);
        if !free {
          return false;
        }
        ship.horizontal := false;
        ship.loc := (r, c);
        FillColumn(ship, r, c);
        ships := ships + [ship];
      } else if orientation == "h" {
        if c < 0 || c + ship.size > 10 {
          return false;
        }
        var free := RowFree(r, c, ship.size);
        if !free {
          return false;
        }
        ship.horizontal := true;
        ship.loc := (r, c);
        FillRow(ship, r, c);
        ships := ships + [ship];
      }
      return true;
    }

    /** The vertical check loop: is every cell (i, c), r <= i < r + size, empty? */
    method ColumnFree(r: int, c: int, size: nat) returns (free: bool)
      requires Valid() && OnBoard(r, c) && r + size <= Size
      ensures free <==> Free(r, c, size, false)
    {
      for i := r to r + size
        invariant forall k :: r <= k < i ==> cells[k, c] == None
      {
        if cells[i, c] != None {
          return false;
        }
      }
      return true;
    }

    /** The horizontal check loop: is every cell (r, j), c <= j < c + size, empty? */
    method RowFree(r: int, c: int, size: nat) returns (free: bool)
      requires Valid() && OnBoard(r, c) && c + size <= Size
      ensures free <==> Free(r, c, size, true)
    {
      for j := c to c + size
        invariant forall k :: c <= k < j ==> cells[r, k] == None
      {
        if cells[r, j] != None {
          return false;
        }
      }
      return true;
    }

    /** The vertical write loop. */
    method FillColumn(ship: Ship, r: int, c: int)
      requires Valid() && OnBoard(r, c) && r + ship.size <= Size
      modifies cells
      ensures forall i, j :: 0 <= i < Size && 0 <= j < Size ==>
        cells[i, j] == if Covers(r, c, ship.size, false, i, j) then Some(ship) else old(cells[i, j])
    {
      for i := r to r + ship.size
        invariant forall a, b :: 0 <= a < Size && 0 <= b < Size ==>
          cells[a, b] == if b == c && r <= a < i then Some(ship) else old(cells[a, b])
      {
        cells[i, c] := Some(ship);
      }
    }

    /** The horizontal write loop. */
    method FillRow(ship: Ship, r: int, c: int)
      requires Valid() && OnBoard(r, c) && c + ship.size <= Size
      modifies cells
      ensures forall i, j :: 0 <= i < Size && 0 <= j < Size ==>
        cells[i, j] == if Covers(r, c, ship.size, true, i, j) then Some(ship) else old(cells[i, j])
    {
      for j := c to c + ship.size
        invariant forall a, b :: 0 <= a < Size && 0 <= b < Size ==>
          cells[a, b] == if a == r && c <= b < j then Some(ship) else old(cells[a, b])
      {
        cells[r, j] := Some(ship);
      }
    }

    /** `allShipsSunk`: True exactly when every placed ship is sunk (so True with no ships). */
    method AllShipsSunk() returns (sunk: bool)
      ensures sunk <==> forall k :: 0 <= k < |ships| ==> ships[k].IsSunk()
    {
      for k := 0 to |ships|
        invariant forall m :: 0 <= m < k ==> ships[m].IsSunk()
      {
        if !ships[k].IsSunk() {
          return false;
        }
      }
      return true;
    }
  }
}
