/** The battleship game's use of PAM: a grid cell (row, column) becomes two levels of a
    16-level constellation, is sent as a square wave, and is read back by averaging,
    detection and looking the two levels up again. The constellation, the square wave,
    the averaging and the detector are those of module `Pam`; this module adds the two
    operations that exist only in the game. */
module GridPam {
  import opened Wrappers
  import opened Pam

  /** The game always uses 16 levels (a 10 x 10 board needs at least 10 per coordinate). */
  const GridLevels: int := 16

  /** Level i of the 16-level constellation with spacing `d`. */
  function GridLevel(i: int, d: real): real
  {
    ((2 * i - (GridLevels - 1)) as real) * d
  }

  /** `create_symbol(r, c)`: the levels `cons16[r]` and `cons16[c]`, where numpy reads a
      negative index from the end and raises beyond -16..15. */
  function CreateSymbol(r: int, c: int, d: real): (s: Outcome<seq<real>>)
    ensures s.Ok? <==> -GridLevels <= r < GridLevels && -GridLevels <= c < GridLevels
    ensures s.Ok? ==> s.value == [GridLevel(r % GridLevels, d), GridLevel(c % GridLevels, d)]
  {
    var cons := Constellation(GridLevels, d).value;
    GridLevelsAre(d);
    var s := CellSymbol(cons, r, c);
    if s.Ok? then
      IndexModulo(cons, r);
      IndexModulo(cons, c);
      s
    else s
  }

  /** numpy's index j in -N..N-1 is the element at `j mod N`. */
  lemma IndexModulo(cons: seq<real>, j: int)
    requires -|cons| <= j < |cons|
    ensures Index(cons, j) == Some(cons[j % |cons|])
  {
    if j < 0 {
      assert j % |cons| == |cons| + j;
    }
  }

  /** The game's constellation, level by level. */
  lemma GridLevelsAre(d: real)
    ensures Constellation(GridLevels, d).Ok?
    ensures forall j :: 0 <= j < GridLevels ==> Constellation(GridLevels, d).value[j] == GridLevel(j, d)
  {
  }

  /** `np.array([cons[r], cons[c]])` with numpy's indexing: negative indices count from the
      end, anything else outside the array raises. */
  function CellSymbol(cons: seq<real>, r: int, c: int): (s: Outcome<seq<real>>)
    ensures s.Ok? <==> -|cons| <= r < |cons| && -|cons| <= c < |cons|
    ensures s.Err? ==> s.error == BadIndex
    ensures s.Ok? ==> |s.value| == 2
  {
    match Index(cons, r)
    case None => Err(BadIndex)
    case Some(x) =>
      match Index(cons, c)
      case None => Err(BadIndex)
      case Some(y) => Ok([x, y])
  }

  /** One step of `get_loc`'s loop: `j = np.where(cons == symbols[i])[0][0]`, which raises
      when `symbols` has no element i or when the symbol is not exactly a level. */
  function LookUp(cons: seq<real>, symbols: seq<real>, i: nat): (r: Outcome<int>)
    ensures r.Ok? <==> i < |symbols| && symbols[i] in cons
    ensures r.Ok? ==> 0 <= r.value < |cons| && cons[r.value] == symbols[i]
    ensures r.Ok? ==> forall j :: 0 <= j < r.value ==> cons[j] != symbols[i]
  {
    if i >= |symbols| then Err(BadIndex)
    else
      match IndexOf(cons, symbols[i])
      case None => Err(NotALevel)
      case Some(j) => Ok(j)
  }

  /** What `get_loc(symbols)` returns or raises: a result names, for each of the first
      two symbols, a level index in 0..15 whose level that symbol is. */
  function Location(d: real, symbols: seq<real>): (loc: Outcome<seq<int>>)
    ensures |symbols| < 2 ==> loc.Err?
    ensures loc.Ok? ==> |loc.value| == 2
    ensures loc.Ok? ==>
      forall i :: 0 <= i < 2 ==> 0 <= loc.value[i] < GridLevels && symbols[i] == GridLevel(loc.value[i], d)
  {
    GridLevelsAre(d);
    LocationIn(Constellation(GridLevels, d).value, symbols)
  }

  /** The indices of the first two symbols in `cons`, looked up in order: it succeeds
      exactly when both are levels, and then names where each one is. */
  function LocationIn(cons: seq<real>, symbols: seq<real>): (r: Outcome<seq<int>>)
    ensures r.Ok? <==> |symbols| >= 2 && symbols[0] in cons && symbols[1] in cons
    ensures r.Ok? ==> |r.value| == 2
    ensures r.Ok? ==> forall i :: 0 <= i < 2 ==> 0 <= r.value[i] < |cons| && cons[r.value[i]] == symbols[i]
    ensures r.Err? && symbols != [] && symbols[0] !in cons ==> r.error == NotALevel
  {
    match LookUp(cons, symbols, 0)
    case Err(e) => Err(e)
    case Ok(r) =>
      match LookUp(cons, symbols, 1)
      case Err(e) => Err(e)
      case Ok(c) => Ok([r, c])
  }

  /** `get_loc`: starts from `[-1, -1]` and overwrites entry i with the index of symbol i. */
  method GetLoc(symbols: seq<real>, d: real) returns (res: Outcome<seq<int>>)
    ensures res == Location(d, symbols)
  {
    var loc: seq<int> := [-1, -1];
    var cons := Constellation(GridLevels, d).value;
    for i := 0 to 2
      invariant |loc| == 2
      invariant forall k :: 0 <= k < i ==> LookUp(cons, symbols, k) == Ok(loc[k])
    {
      if i >= |symbols| {
        return Err(BadIndex);
      }
      var j := IndexOf(cons, symbols[i]);
      if j.None? {
        return Err(NotALevel);
      }
      loc := loc[i := j.value];
    }
    assert loc == [loc[0], loc[1]];
    return Ok(loc);
  }

  /** `get_loc(create_symbol(r, c)) == [r, c]` for every cell of the 16 x 16 grid, and more
      generally numpy's negative indices come back as their non-negative equivalents. */
  lemma LocationOfSymbol(r: int, c: int, d: real)
    requires d > 0.0
    requires -GridLevels <= r < GridLevels && -GridLevels <= c < GridLevels
    ensures CreateSymbol(r, c, d).Ok?
    ensures Location(d, CreateSymbol(r, c, d).value) == Ok([r % GridLevels, c % GridLevels])
  {
    var cons := Constellation(GridLevels, d).value;
    LevelsIncrease(cons, GridLevels, d);
    LocationOfCell(cons, r, c);
  }

  lemma LocationOfCell(cons: seq<real>, r: int, c: int)
    requires StrictlyIncreasing(cons) && |cons| == GridLevels
    requires -GridLevels <= r < GridLevels && -GridLevels <= c < GridLevels
    ensures CellSymbol(cons, r, c).Ok?
    ensures LocationIn(cons, CellSymbol(cons, r, c).value) == Ok([r % GridLevels, c % GridLevels])
  {
    var i, j := r % GridLevels, c % GridLevels;
    assert CellSymbol(cons, r, c).value == [cons[i], cons[j]];
    IndexOfLevel(cons, i);
    IndexOfLevel(cons, j);
  }

  /** The square wave of a grid cell has `2 K` samples: K copies of the row level, then K
      of the column level. */
  lemma GridMessage(r: int, c: int, d: real, k: int)
    requires CreateSymbol(r, c, d).Ok? && k >= 0
    ensures var s := CreateSymbol(r, c, d).value;
            CreateMessage(s, k).Ok? && |CreateMessage(s, k).value| == 2 * k &&
            forall i :: 0 <= i < 2 * k ==> CreateMessage(s, k).value[i] == (if i < k then s[0] else s[1])
  {
    var s := CreateSymbol(r, c, d).value;
    CreateMessageShape(s, k);
    forall i | 0 <= i < 2 * k
      ensures CreateMessage(s, k).value[i] == (if i < k then s[0] else s[1])
    {
      if i < k {
        DivUnique(i, k, 0, i);
      } else {
        DivUnique(i, k, 1, i - k);
      }
    }
  }

  /** The noise-free game link: the cell survives the square wave, the averaging, the
      detector and the lookup. */
  lemma GridPipeline(r: int, c: int, d: real, k: int)
    requires d > 0.0 && k >= 1
    requires 0 <= r < GridLevels && 0 <= c < GridLevels
    ensures CreateSymbol(r, c, d).Ok?
    ensures var s := CreateSymbol(r, c, d).value;
            var received := Decoded(CreateMessage(s, k).value, k);
            received == Ok(s)
            && Detected(GridLevels, d, received.value) == Ok(s)
            && Location(d, s) == Ok([r, c])
  {
    var cons := Constellation(GridLevels, d).value;
    var s := CreateSymbol(r, c, d).value;
    DecodeCreate(s, k);
    LevelsIncrease(cons, GridLevels, d);
    assert s[0] == cons[r] && s[1] == cons[c];
    DetectFixed(cons, s);
    LocationOfSymbol(r, c, d);
  }
}
