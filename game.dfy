/** One turn of the game: reading the called cell and resolving the shot (and the bonus
    shot a sinking earns) against the opponent's ocean board. */
module Game {
  import opened Wrappers
  import opened Numerals
  import opened Boards
  import opened Ships
  import opened TargetBoards
  import opened OceanBoards
  import opened Players

  /** `convertLoc`: the cell a location such as "a1" or "j10" names, or `None` (the source's
      False) when the number does not parse or the row or column falls off the board. */
  function ConvertLoc(loc: string): (rc: Option<(int, int)>)
    ensures rc.Some? ==> OnBoard(rc.value.0, rc.value.1)
    ensures rc.Some? ==>
      && |loc| >= 2 && 'a' <= loc[0] <= 'j'
      && rc.value.0 == (loc[0] as int) - ('a' as int)
      && ParseInt(loc[1..], 10) == Some(rc.value.1 + 1)
    ensures rc.None? <==>
      || |loc| == 0
      || ParseInt(loc[1..], 10).None?
      || !(1 <= ParseInt(loc[1..], 10).value <= 10)
      || !('a' <= loc[0] <= 'j')
  {
    if |loc| == 0 then None
    else
      match ParseInt(loc[1..], 10)
      case None => None
      case Some(n) =>
        var c := n - 1;
        if !(0 <= c <= 9) then None
        else
          var r := (loc[0] as int) - ('a' as int);
          if !(0 <= r <= 9) then None else Some((r, c))
  }

  /** Every cell's name is read back as that cell. */
  lemma ConvertCellName(r: nat, c: nat)
    requires OnBoard(r, c)
    ensures ConvertLoc(CellName(r, c)) == Some((r, c))
  {
    ParseCellName(r, c);
  }

  /** A shot location means the same cell to `convertLoc` as to `placeShip`. */
  lemma ConvertAgreesWithPlacement(loc: string)
    ensures ConvertLoc(loc).Some? ==> ParseLoc(loc) == ConvertLoc(loc)
    ensures ParseLoc(loc).Some? && OnBoard(ParseLoc(loc).value.0, ParseLoc(loc).value.1) ==>
      ConvertLoc(loc) == ParseLoc(loc)
  {
  }

  /** What a shot came to. */
  datatype Shot = Repeated | Miss | Hit(sunk: bool)

  /** The player whose turn it is (player 1 when `playerNumber` is 0) and their opponent. */
  function Shooter(p1: Player, p2: Player, playerNumber: int): Player
  {
    if playerNumber == 0 then p1 else p2
  }

  function Opponent(p1: Player, p2: Player, playerNumber: int): Player
  {
    if playerNumber == 0 then p2 else p1
  }

  /** Every peg on `p`'s target board agrees with `o`'s ocean: red over a ship, white over
      open water. */
  predicate PegsAgree(p: Player, o: Player)
    requires p.Valid() && o.Valid()
    reads p, p.ocean, p.target, p.target.cells, o, o.ocean, o.target, o.ocean.cells
  {
    forall i, j :: 0 <= i < Size && 0 <= j < Size ==>
      (p.target.cells[i, j] == Some(RedPeg) ==> o.ocean.cells[i, j].Some?) &&
      (p.target.cells[i, j] == Some(WhitePeg) ==> o.ocean.cells[i, j].None?)
  }

  /** Each of `ships` that was sunk before is still sunk. */
  twostate predicate StaySunk(ships: seq<Ship>)
    reads ships
  {
    forall k :: 0 <= k < |ships| && old(ships[k].IsSunk()) ==> ships[k].IsSunk()
  }

  /** Every ship of the player's fleet is sunk. */
  predicate FleetSunk(pl: Player)
    reads pl, pl.ocean, pl.ocean.ships
  {
    forall k :: 0 <= k < |pl.ocean.ships| ==> pl.ocean.ships[k].IsSunk()
  }

  /** The ship standing on (r, c), as a set: empty over open water. */
  function ShipOn(ocean: OceanBoard, r: int, c: int): set<Ship>
    requires ocean.Valid() && OnBoard(r, c)
    reads ocean, ocean.cells
  {
    if ocean.cells[r, c].Some? then {ocean.cells[r, c].value} else {}
  }

  /** The peg a shot at (r, c) leaves on the shooter's target board. */
  function PegFor(ocean: OceanBoard, r: int, c: int): int
    requires ocean.Valid() && OnBoard(r, c)
    reads ocean, ocean.cells
  {
    if ocean.cells[r, c].Some? then RedPeg else WhitePeg
  }

  /** What a shot at (r, c) answers once fired: a miss over open water, otherwise a hit
      that says whether the ship is now sunk. */
  function Answer(ocean: OceanBoard, r: int, c: int): Shot
    requires ocean.Valid() && OnBoard(r, c)
    reads ocean, ocean.cells, ShipOn(ocean, r, c)
  {
    if ocean.cells[r, c].Some? then Hit(ocean.cells[r, c].value.IsSunk()) else Miss
  }

  /** Ship `s`'s status `status` with a shot at (r, c) recorded, which changes it only
      when `s` stands on that cell. */
  function Record(ocean: OceanBoard, s: Ship, status: seq<int>, r: int, c: int): seq<int>
    requires ocean.Valid() && OnBoard(r, c)
    reads ocean, ocean.cells, s
  {
    if ocean.cells[r, c] == Some(s) then Marked(status, s.Offset(r, c)) else status
  }

  /** The state a turn leaves, given its answers: `shot` at `cell` and, when a bonus shot
      was fired, `extra` at the bonus cell.
      - The called cell is refused exactly when it was already pegged; otherwise it is
        fired on, and so is the bonus cell exactly when the first shot sank a ship and
        the shooter took the bonus.
      - Each cell fired on answers what the ocean holds there, and receives its peg.
      - Every other peg is as before.
      - Each ship records the shots that landed on it, in order, and keeps its placement;
        no other ship changes. */
  twostate predicate Resolved(pegs: array2<Option<int>>, ocean: OceanBoard, cell: (int, int),
                              bonus: Option<(int, int)>, shot: Shot, new extra: Option<Shot>)
    requires pegs.Length0 == Size && pegs.Length1 == Size && ocean.Valid() && OnBoard(cell.0, cell.1)
    requires bonus.Some? ==> OnBoard(bonus.value.0, bonus.value.1)
    reads pegs, ocean, ocean.cells, ocean.Occupants()
  {
    && (shot == Repeated <==> old(pegs[cell.0, cell.1]).Some?)
    && (shot != Repeated ==> shot == Answer(ocean, cell.0, cell.1))
    && (extra.Some? <==> shot == Hit(true) && bonus.Some?)
    && (extra.Some? ==> extra.value == Answer(ocean, bonus.value.0, bonus.value.1))
    && (forall i, j :: 0 <= i < Size && 0 <= j < Size ==>
          pegs[i, j] ==
            if (shot != Repeated && (i, j) == cell) || (extra.Some? && (i, j) == bonus.value)
            then Some(PegFor(ocean, i, j)) else old(pegs[i, j]))
    && (forall s :: s in ocean.Occupants() ==>
          && old(allocated(s)) && s.loc == old(s.loc) && s.horizontal == old(s.horizontal)
          && var first := if shot == Repeated then old(s.status) else Record(ocean, s, old(s.status), cell.0, cell.1);
             s.status == if extra.Some? then Record(ocean, s, first, bonus.value.0, bonus.value.1) else first)
  }

  /** A shot at (r, c) with no check of the target board: over open water a white peg and
      a miss; over a ship, the ship records the hit, a red peg, and whether it is now sunk.
      The bonus shot works exactly so. */
  method Fire(p: Player, o: Player, r: int, c: int) returns (shot: Shot)
    requires p.Valid() && o.Valid() && OnBoard(r, c)
    modifies p.target.cells, ShipOn(o.ocean, r, c)
    ensures p.Valid() && o.Valid()
    ensures shot == Answer(o.ocean, r, c)
    ensures forall i, j :: 0 <= i < Size && 0 <= j < Size ==>
      p.target.cells[i, j] == if (i, j) == (r, c) then Some(PegFor(o.ocean, r, c)) else old(p.target.cells[i, j])
    ensures forall s :: s in ShipOn(o.ocean, r, c) ==>
      s.status == Record(o.ocean, s, old(s.status), r, c) && s.loc == old(s.loc) && s.horizontal == old(s.horizontal)
    ensures old(PegsAgree(p, o)) ==> PegsAgree(p, o)
    ensures StaySunk(o.ocean.ships)
  {
    var piece := o.ocean.cells[r, c];
    if piece.None? {
      p.target.MarkMiss(r, c);
      shot := Miss;
    } else {
      var ship := piece.value;
      ship.MarkHitAt(r, c);
      p.target.MarkHit(r, c);
      shot := Hit(ship.IsSunk());
      forall k | 0 <= k < |o.ocean.ships| && old(o.ocean.ships[k].IsSunk())
        ensures o.ocean.ships[k].IsSunk()
      {
        if o.ocean.ships[k] == ship {
          var off := old(ship.Offset(r, c));
          if 0 <= off < |old(ship.status)| {
            SinkingHit(old(ship.status), off);
          }
        }
      }
    }
  }

  /** Lines 62-84: a cell already on the target board is not shot again; any other cell
      is fired on. */
  method ResolveShot(p: Player, o: Player, r: int, c: int) returns (shot: Shot)
    requires p.Valid() && o.Valid() && OnBoard(r, c)
    modifies p.target.cells, ShipOn(o.ocean, r, c)
    ensures p.Valid() && o.Valid()
    ensures shot == Repeated <==> old(p.target.cells[r, c]).Some?
    ensures shot != Repeated ==> shot == Answer(o.ocean, r, c)
    ensures forall i, j :: 0 <= i < Size && 0 <= j < Size ==>
      p.target.cells[i, j] ==
        if shot != Repeated && (i, j) == (r, c) then Some(PegFor(o.ocean, r, c)) else old(p.target.cells[i, j])
    ensures forall s :: s in o.ocean.Occupants() ==>
      && old(allocated(s)) && s.loc == old(s.loc) && s.horizontal == old(s.horizontal)
      && s.status == if shot == Repeated then old(s.status) else Record(o.ocean, s, old(s.status), r, c)
    ensures old(PegsAgree(p, o)) ==> PegsAgree(p, o)
    ensures StaySunk(o.ocean.ships)
  {
    if p.target.cells[r, c].Some? {
      return Repeated;
    }
    shot := Fire(p, o, r, c);
  }

  /** The ship a bonus shot may hit: the one on the bonus cell, when a bonus is fired. */
  function BonusTarget(o: Player, shot: Shot, bonus: Option<(int, int)>): set<Ship>
    requires o.Valid() && (bonus.Some? ==> OnBoard(bonus.value.0, bonus.value.1))
    reads o, o.ocean, o.target, o.ocean.cells
  {
    if shot == Hit(true) && bonus.Some? then ShipOn(o.ocean, bonus.value.0, bonus.value.1) else {}
  }

  /** Lines 86-111: a shot that sinks a ship earns one more, fired without checking the
      target board, when the shooter takes it (`bonus` holds the cell they chose). */
  method TakeBonus(p: Player, o: Player, shot: Shot, bonus: Option<(int, int)>) returns (extra: Option<Shot>)
    requires p.Valid() && o.Valid()
    requires bonus.Some? ==> OnBoard(bonus.value.0, bonus.value.1)
    modifies p.target.cells, BonusTarget(o, shot, bonus)
    ensures p.Valid() && o.Valid()
    ensures extra.Some? <==> shot == Hit(true) && bonus.Some?
    ensures extra.Some? ==> extra.value == Answer(o.ocean, bonus.value.0, bonus.value.1)
    ensures forall i, j :: 0 <= i < Size && 0 <= j < Size ==>
      p.target.cells[i, j] ==
        if extra.Some? && (i, j) == bonus.value then Some(PegFor(o.ocean, i, j)) else old(p.target.cells[i, j])
    ensures forall s :: s in o.ocean.Occupants() ==>
      && old(allocated(s)) && s.loc == old(s.loc) && s.horizontal == old(s.horizontal)
      && s.status == if extra.Some? then Record(o.ocean, s, old(s.status), bonus.value.0, bonus.value.1) else old(s.status)
    ensures old(PegsAgree(p, o)) ==> PegsAgree(p, o)
    ensures StaySunk(o.ocean.ships)
  {
    extra := None;
    if shot == Hit(true) && bonus.Some? {
      var (r, c) := bonus.value;
      var second := Fire(p, o, r, c);
      extra := Some(second);
    }
  }

  /** Lines 62-111 for the shooter `p` and the opponent `o`: the called shot, then the
      bonus shot it may earn. */
  method Shoot(p: Player, o: Player, cell: (int, int), bonus: Option<(int, int)>)
    returns (shot: Shot, extra: Option<Shot>)
    requires p.Valid() && o.Valid() && OnBoard(cell.0, cell.1)
    requires bonus.Some? ==> OnBoard(bonus.value.0, bonus.value.1)
    modifies p.target.cells, o.ocean.Occupants()
    ensures p.Valid() && o.Valid()
    ensures Resolved(p.target.cells, o.ocean, cell, bonus, shot, extra)
    ensures old(PegsAgree(p, o)) ==> PegsAgree(p, o)
    ensures StaySunk(o.ocean.ships)
  {
    var (r, c) := cell;
    OccupantAt(o.ocean, r, c);
    ghost var occupants := o.ocean.Occupants();
    shot := ResolveShot(p, o, r, c);
    assert o.ocean.Occupants() == occupants;
    ghost var status := if o.ocean.cells[r, c].Some? then o.ocean.cells[r, c].value.status else [];
    extra := TakeBonus(p, o, shot, bonus);
    assert o.ocean.Occupants() == occupants;
    forall s | s in occupants
      ensures old(allocated(s)) && s.loc == old(s.loc) && s.horizontal == old(s.horizontal)
      ensures var first := if shot == Repeated then old(s.status) else Record(o.ocean, s, old(s.status), r, c);
        s.status == if extra.Some? then Record(o.ocean, s, first, bonus.value.0, bonus.value.1) else first
    {
    }
    if extra.Some? {
      var (br, bc) := bonus.value;
      OccupantAt(o.ocean, br, bc);
      if o.ocean.cells[r, c].Some? && o.ocean.cells[br, bc] == o.ocean.cells[r, c] {
        var ship := o.ocean.cells[r, c].value;
        var off := ship.Offset(br, bc);
        if 0 <= off < |status| {
          SinkingHit(status, off);
        }
      }
    }
  }

  /** Lines 62-113: the shots, then whether either fleet is all sunk. */
  method Play(p: Player, o: Player, cell: (int, int), bonus: Option<(int, int)>)
    returns (shot: Shot, extra: Option<Shot>, over: bool)
    requires p.Valid() && o.Valid() && OnBoard(cell.0, cell.1)
    requires bonus.Some? ==> OnBoard(bonus.value.0, bonus.value.1)
    modifies p.target.cells, o.ocean.Occupants()
    ensures p.Valid() && o.Valid()
    ensures Resolved(p.target.cells, o.ocean, cell, bonus, shot, extra)
    ensures old(PegsAgree(p, o)) ==> PegsAgree(p, o)
    ensures StaySunk(o.ocean.ships)
    ensures over <==> FleetSunk(p) || FleetSunk(o)
  {
    shot, extra := Shoot(p, o, cell, bonus);
    var pDone := p.AllShipsSunk();
    var oDone := o.AllShipsSunk();
    over := pDone || oDone;
  }

  /** `turn`: player 1 shoots when `playerNumber` is 0, player 2 otherwise. The shooter
      fires at `cell`; when that shot sinks a ship and `bonus` holds the second cell they
      chose, they fire again there. The answer is whether either fleet is all sunk. */
  method Turn(p1: Player, p2: Player, playerNumber: int, cell: (int, int), bonus: Option<(int, int)>)
    returns (shot: Shot, extra: Option<Shot>, over: bool)
    requires p1.Valid() && p2.Valid() && OnBoard(cell.0, cell.1)
    requires bonus.Some? ==> OnBoard(bonus.value.0, bonus.value.1)
    modifies Shooter(p1, p2, playerNumber).target.cells, Opponent(p1, p2, playerNumber).ocean.Occupants()
    ensures p1.Valid() && p2.Valid()
    ensures Resolved(Shooter(p1, p2, playerNumber).target.cells, Opponent(p1, p2, playerNumber).ocean, cell, bonus, shot, extra)
    ensures old(PegsAgree(Shooter(p1, p2, playerNumber), Opponent(p1, p2, playerNumber))) ==>
      PegsAgree(Shooter(p1, p2, playerNumber), Opponent(p1, p2, playerNumber))
    ensures StaySunk(Opponent(p1, p2, playerNumber).ocean.ships)
    ensures over <==> FleetSunk(p1) || FleetSunk(p2)
  {
    var p, o := p1, p2;
    if playerNumber != 0 {
      p, o := p2, p1;
    }
    shot, extra, over := Play(p, o, cell, bonus);
  }

  /** The ship on a cell is one of the board's occupants. */
  lemma OccupantAt(ocean: OceanBoard, r: int, c: int)
    requires ocean.Valid() && OnBoard(r, c)
    ensures ocean.cells[r, c].Some? ==> ocean.cells[r, c].value in ocean.Occupants()
  {
  }
}
