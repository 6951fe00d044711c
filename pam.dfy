/** Pulse-amplitude modulation (PAM) as the voice chat and the battleship game use it:
    an N-level constellation, the mapping of bit strings to levels, the square wave that
    repeats each level K times, the block averaging that undoes it, the nearest-level
    detector and the mapping of detected levels back to bit strings.

    Arithmetic is exact: levels are reals, and the spacing `d` that the source computes as
    `sqrt(1 / s)` is a parameter of every operation that builds the constellation. */
module Pam {
  import opened Wrappers
  import opened Numerals

  /** The ways the pipeline stops instead of returning. */
  datatype PamError =
    | BadLevels       // N <= 0: ValueError from the constellation (or from int(log2 N))
    | NotANumber      // int(quarter, 2) rejects a quarter of a bit string
    | BadIndex        // a constellation index outside -N .. N-1: IndexError
    | NotALevel       // np.where(cons == s) is empty: IndexError
    | NegativeRepeat  // np.repeat with a negative count: ValueError
    | NonTerminating  // decode_message's loop never ends (K < 1 on a non-empty message)

  type Outcome<T> = Result<T, PamError>

  function Then<T>(prefix: seq<T>, r: Outcome<seq<T>>): Outcome<seq<T>>
  {
    match r
    case Err(e) => Err(e)
    case Ok(s) => Ok(prefix + s)
  }

  lemma ThenAssoc<T>(a: seq<T>, b: seq<T>, r: Outcome<seq<T>>)
    ensures Then(a, Then(b, r)) == Then(a + b, r)
  {
    if r.Ok? {
      assert a + (b + r.value) == (a + b) + r.value;
    }
  }

  lemma ThenEmpty<T>(r: Outcome<seq<T>>)
    ensures Then([], r) == r
  {
    if r.Ok? {
      assert [] + r.value == r.value;
    }
  }

  // ---------------------------------------------------------------------------
  // The constellation

  /** `np.arange(-N+1, N, 2)`: the unscaled levels, two apart and symmetric about zero. */
  function Unscaled(n: nat): (u: seq<int>)
    ensures |u| == n
  {
    seq(n, i => 2 * i - (n - 1))
  }

  /** `np.sum(np.square(u))`. */
  function SumSquares(u: seq<int>): int
  {
    if u == [] then 0 else SumSquares(u[..|u| - 1]) + u[|u| - 1] * u[|u| - 1]
  }

  /** `pam_constallation(N)` with the spacing `d` standing for `sqrt(1 / (SumSquares // N))`. */
  function Constellation(n: int, d: real): (r: Outcome<seq<real>>)
    ensures r.Err? <==> n <= 0
    ensures r.Err? ==> r.error == BadLevels
    ensures r.Ok? ==> |r.value| == n && forall i :: 0 <= i < n ==> r.value[i] == (Unscaled(n)[i] as real) * d
  {
    if n <= 0 then Err(BadLevels) else Ok(seq(n, i => ((2 * i - (n - 1)) as real) * d))
  }

  /** The levels of an N-level constellation with a positive spacing. */
  predicate Levels(cons: seq<real>, n: int, d: real)
  {
    d > 0.0 && Constellation(n, d) == Ok(cons)
  }

  predicate StrictlyIncreasing(s: seq<real>)
  {
    forall i, j :: 0 <= i < j < |s| ==> s[i] < s[j]
  }

  /** The levels are strictly increasing, hence pairwise distinct. */
  lemma LevelsIncrease(cons: seq<real>, n: int, d: real)
    requires Levels(cons, n, d)
    ensures StrictlyIncreasing(cons)
  {
    forall i, j | 0 <= i < j < |cons| ensures cons[i] < cons[j] {
      ScaledOrder(cons[i], cons[j], Unscaled(n)[i] as real, Unscaled(n)[j] as real, d);
    }
  }

  lemma ScaledOrder(x: real, y: real, a: real, b: real, d: real)
    requires x == a * d && y == b * d && a < b && d > 0.0
    ensures x < y
  {
    assert b * d - a * d == (b - a) * d;
  }

  /** The levels are odd-symmetric: level i is the negation of level N-1-i. */
  lemma LevelsSymmetric(cons: seq<real>, n: int, d: real)
    requires Levels(cons, n, d)
    ensures forall i :: 0 <= i < n ==> cons[n - 1 - i] == -cons[i]
  {
    forall i | 0 <= i < n ensures cons[n - 1 - i] == -cons[i] {
      var a := (2 * i - (n - 1)) as real;
      assert cons[n - 1 - i] == (-a) * d;
    }
  }

  /** The sum of squares of `k` integers starting at `a`, two apart. */
  function SumSquaresFrom(a: int, k: nat): int
  {
    if k == 0 then 0 else SumSquaresFrom(a, k - 1) + (a + 2 * (k - 1)) * (a + 2 * (k - 1))
  }

  /** Three times the closed form of `SumSquaresFrom(a, k)`. */
  function ClosedSum(a: int, k: int): int
  {
    3 * k * a * a + 6 * a * k * (k - 1) + 2 * (k - 1) * k * (2 * k - 1)
  }

  lemma ClosedSumStep(a: int, m: int)
    ensures ClosedSum(a, m + 1) == ClosedSum(a, m) + 3 * (a + 2 * m) * (a + 2 * m)
  {
    assert 3 * (m + 1) * a * a == 3 * m * a * a + 3 * a * a;
    assert 6 * a * (m + 1) * m == 6 * a * m * (m - 1) + 12 * a * m;
    assert 2 * m * (m + 1) * (2 * m + 1) == 4 * m * m * m + 6 * m * m + 2 * m;
    assert 2 * (m - 1) * m * (2 * m - 1) == 4 * m * m * m - 6 * m * m + 2 * m;
    assert 3 * (a + 2 * m) * (a + 2 * m) == 3 * a * a + 12 * a * m + 12 * m * m;
  }

  lemma {:induction false} SumSquaresClosed(a: int, k: nat)
    ensures 3 * SumSquaresFrom(a, k) == ClosedSum(a, k)
  {
    if k > 0 {
      SumSquaresClosed(a, k - 1);
      ClosedSumStep(a, k - 1);
    }
  }

  lemma {:induction false} SumSquaresOfLevels(n: nat, k: nat)
    requires k <= n
    ensures SumSquares(Unscaled(n)[..k]) == SumSquaresFrom(-(n - 1), k)
  {
    if k > 0 {
      SumSquaresOfLevels(n, k - 1);
      assert Unscaled(n)[..k][..k - 1] == Unscaled(n)[..k - 1];
    }
  }

  /** The squared unscaled levels add up to N(N²-1)/3. */
  lemma LevelPower(n: nat)
    ensures 3 * SumSquares(Unscaled(n)) == n * (n * n - 1)
  {
    SumSquaresOfLevels(n, n);
    assert Unscaled(n)[..n] == Unscaled(n);
    SumSquaresClosed(-(n - 1), n);
    ClosedSumOfLevels(n);
  }

  lemma ClosedSumOfLevels(n: int)
    ensures ClosedSum(-(n - 1), n) == n * (n * n - 1)
  {
    var m := n - 1;
    assert ClosedSum(-m, n) == 3 * n * m * m - 6 * m * n * m + 2 * m * n * (2 * n - 1);
    assert 3 * n * m * m - 6 * m * n * m + 2 * m * n * (2 * n - 1) == n * m * (n + 1);
  }

  /** `SumSquares // N` is exact exactly when 3 does not divide N (every power of two included). */
  lemma ExactDivision(n: nat)
    requires n >= 1
    ensures SumSquares(Unscaled(n)) % n == 0 <==> n % 3 != 0
  {
    LevelPower(n);
    if n % 3 == 0 {
      NotDivisible(n, SumSquares(Unscaled(n)));
    } else {
      Divisible(n, SumSquares(Unscaled(n)));
    }
  }

  lemma Divisible(n: int, sum: int)
    requires n >= 1 && n % 3 != 0 && 3 * sum == n * (n * n - 1)
    ensures sum % n == 0
  {
    var q := n / 3;
    var t := if n % 3 == 1 then 3 * q * q + 2 * q else 3 * q * q + 4 * q + 1;
    assert n * n - 1 == 3 * t by { SquareModThree(n, q, n % 3); }
    Cancel(sum, n, t);
    ModUnique(n * t, n, t, 0);
  }

  lemma NotDivisible(n: int, sum: int)
    requires n >= 1 && n % 3 == 0 && 3 * sum == n * (n * n - 1)
    ensures sum % n == 2 * (n / 3)
  {
    var q := n / 3;
    var m := n * n - 1;
    assert n * m == q * (3 * m);
    Cancel(sum, q, m);
    NotMultiple(n, q, sum);
  }

  lemma SquareModThree(n: int, q: int, r: int)
    requires n == 3 * q + r
    ensures n * n - 1 == 3 * (3 * q * q + 2 * q * r) + r * r - 1
  {
  }

  lemma Cancel(sum: int, n: int, t: int)
    requires 3 * sum == n * (3 * t)
    ensures sum == n * t
  {
  }

  /** Division with remainder has one answer. */
  lemma ModUnique(x: int, n: int, a: int, b: int)
    requires n > 0 && 0 <= b < n && x == n * a + b
    ensures x % n == b
  {
    var q, r := x / n, x % n;
    var k := a - q;
    assert n * k == r - b;
    MulBounds(n, k);
  }

  lemma MulBounds(n: int, k: int)
    requires n > 0
    ensures k >= 1 ==> n * k >= n
    ensures k <= -1 ==> n * k <= -n
  {
  }

  lemma NotMultiple(n: int, q: int, sum: int)
    requires q >= 1 && n == 3 * q && sum == q * (n * n - 1)
    ensures sum % n == 2 * q
  {
    assert sum == n * (3 * q * q - 1) + 2 * q;
    ModUnique(sum, n, 3 * q * q - 1, 2 * q);
  }

  /** `np.sum(np.square(levels))` over the scaled levels. */
  function PowerSum(c: seq<real>): real
  {
    if c == [] then 0.0 else PowerSum(c[..|c| - 1]) + c[|c| - 1] * c[|c| - 1]
  }

  /** The average power of a constellation. */
  function MeanPower(c: seq<real>): real
    requires |c| > 0
  {
    PowerSum(c) / (|c| as real)
  }

  /** `cons` is `u` scaled by `d`, stated from the last element back. */
  predicate ScaledBy(cons: seq<real>, u: seq<int>, d: real)
  {
    |cons| == |u| &&
    (u == [] || (ScaledBy(cons[..|cons| - 1], u[..|u| - 1], d) && cons[|cons| - 1] == (u[|u| - 1] as real) * d))
  }

  lemma {:induction false} ScaledPrefix(cons: seq<real>, u: seq<int>, d: real, k: nat)
    requires |cons| == |u| && k <= |u|
    requires forall i :: 0 <= i < |u| ==> cons[i] == (u[i] as real) * d
    ensures ScaledBy(cons[..k], u[..k], d)
  {
    if k > 0 {
      ScaledPrefix(cons, u, d, k - 1);
      assert cons[..k][..k - 1] == cons[..k - 1];
      assert u[..k][..k - 1] == u[..k - 1];
    }
  }

  /** Scaling every level by `d` scales the power by `d * d`. */
  lemma {:induction false} PowerScaledBy(cons: seq<real>, u: seq<int>, d: real)
    requires ScaledBy(cons, u, d)
    ensures PowerSum(cons) == d * d * (SumSquares(u) as real)
  {
    if u == [] {
      ScaledZero(d);
    } else {
      var c, v := cons[..|cons| - 1], u[..|u| - 1];
      PowerScaledBy(c, v, d);
      PowerStep(PowerSum(cons), PowerSum(c), cons[|cons| - 1], SumSquares(u), SumSquares(v), u[|u| - 1], d);
    }
  }

  lemma ScaledZero(d: real)
    ensures d * d * (0 as real) == 0.0
  {
  }

  /** Adding one scaled square to a scaled sum of squares keeps it scaled. */
  lemma PowerStep(total: real, p: real, c: real, sum: int, a: int, y: int, d: real)
    requires total == p + c * c && sum == a + y * y
    requires p == d * d * (a as real) && c == (y as real) * d
    ensures total == d * d * (sum as real)
  {
    ScaledSquare(y as real, d);
    CastSquare(y);
    Distribute(d * d, a as real, (y as real) * (y as real));
  }

  lemma CastSquare(y: int)
    ensures (y * y) as real == (y as real) * (y as real)
  {
  }

  lemma ScaledSquare(u: real, d: real)
    ensures (u * d) * (u * d) == d * d * (u * u)
  {
  }

  lemma Distribute(k: real, a: real, b: real)
    ensures k * a + k * b == k * (a + b)
  {
  }

  /** `d` is `sqrt(1 / s)` with `s = SumSquares // N`, as the source computes it; it exists
      only for N >= 2, since for N = 1 the sum is 0. */
  predicate Spacing(n: int, d: real)
  {
    n >= 1 && d > 0.0 && d * d * ((SumSquares(Unscaled(n)) / n) as real) == 1.0
  }

  /** The average power is 1, as the docstring demands, exactly when 3 does not divide N. */
  lemma UnitPower(cons: seq<real>, n: int, d: real)
    requires Spacing(n, d) && Constellation(n, d) == Ok(cons)
    ensures MeanPower(cons) == 1.0 <==> n % 3 != 0
  {
    LevelsScaled(cons, n, d);
    PowerScaledBy(cons, Unscaled(n), d);
    MeanOfLevels(cons, n, d);
  }

  /** The levels are the unscaled levels multiplied by `d`. */
  lemma LevelsScaled(cons: seq<real>, n: int, d: real)
    requires Constellation(n, d) == Ok(cons)
    ensures |cons| == n && ScaledBy(cons, Unscaled(n), d)
  {
    var u := Unscaled(n);
    ScaledPrefix(cons, u, d, n);
    assert cons[..n] == cons;
    assert u[..n] == u;
  }

  lemma MeanOfLevels(cons: seq<real>, n: int, d: real)
    requires Spacing(n, d) && |cons| == n
    requires PowerSum(cons) == d * d * (SumSquares(Unscaled(n)) as real)
    ensures MeanPower(cons) == 1.0 <==> n % 3 != 0
  {
    ExactDivision(n);
    MeanOfSum(cons, n, d, SumSquares(Unscaled(n)));
  }

  lemma MeanOfSum(cons: seq<real>, n: int, d: real, sum: int)
    requires n >= 1 && d > 0.0 && |cons| == n
    requires PowerSum(cons) == d * d * (sum as real) && d * d * ((sum / n) as real) == 1.0
    requires sum % n == 0 <==> n % 3 != 0
    ensures MeanPower(cons) == 1.0 <==> n % 3 != 0
  {
    PowerOfSum(PowerSum(cons), d, sum, n);
  }

  lemma PowerOfSum(p: real, d: real, sum: int, n: int)
    requires n >= 1 && d > 0.0
    requires p == d * d * (sum as real) && d * d * ((sum / n) as real) == 1.0
    ensures p / (n as real) == 1.0 <==> sum % n == 0
  {
    var s, r := sum / n, sum % n;
    assert sum == n * s + r;
    CastProduct(n, s);
    assert sum as real == (n as real) * (s as real) + r as real;
    PowerSplit(p, n as real, d, s as real, r as real);
  }

  lemma CastProduct(a: int, b: int)
    ensures (a * b) as real == (a as real) * (b as real)
  {
  }

  /** The real-number core of `UnitPower`: with d²s = 1, the power d²(Ns + r) averages to 1
      over N exactly when the remainder r is 0. */
  lemma PowerSplit(p: real, nr: real, d: real, s: real, r: real)
    requires nr > 0.0 && d > 0.0 && r >= 0.0
    requires d * d * s == 1.0 && p == d * d * (nr * s + r)
    ensures p / nr == 1.0 <==> r == 0.0
  {
    assert p == nr * (d * d * s) + d * d * r;
    if r > 0.0 {
      ScalePositive(d, r);
    }
  }

  lemma ScalePositive(d: real, r: real)
    requires d > 0.0 && r > 0.0
    ensures d * d * r > 0.0
  {
    assert d * d > 0.0;
  }

  // ---------------------------------------------------------------------------
  // Bit strings to levels: digital_modulation

  /** Python's `s[lo:hi]` for non-negative bounds: both are cut to the length, and a
      start past the stop gives the empty string. */
  function Slice(s: string, lo: nat, hi: nat): (t: string)
    ensures lo <= hi <= |s| ==> t == s[lo..hi]
  {
    var a := if lo < |s| then lo else |s|;
    var b := if hi < |s| then hi else |s|;
    if a <= b then s[a..b] else []
  }

  /** The four pieces `digital_modulation` cuts a string into: three of `len // 4`
      characters (the third ends at `3 * (len // 4)`) and the rest. */
  function Quarters(num: string): seq<string>
  {
    var q := |num| / 4;
    [Slice(num, 0, q), Slice(num, q, |num| / 2), Slice(num, |num| / 2, q * 3), Slice(num, q * 3, |num|)]
  }

  /** numpy's `cons[j]`: a negative index counts from the end. */
  function Index(cons: seq<real>, j: int): (r: Option<real>)
    ensures r.Some? <==> -|cons| <= j < |cons|
    ensures 0 <= j < |cons| ==> r == Some(cons[j])
  {
    if 0 <= j < |cons| then Some(cons[j])
    else if -|cons| <= j < 0 then Some(cons[|cons| + j])
    else None
  }

  /** `float(cons[int(part, 2)])`. */
  function LevelOf(cons: seq<real>, part: string): Outcome<real>
  {
    match ParseInt(part, 2)
    case None => Err(NotANumber)
    case Some(j) =>
      match Index(cons, j)
      case None => Err(BadIndex)
      case Some(x) => Ok(x)
  }

  /** The four levels one string maps to, or the error of the first quarter that fails. */
  function Modulate4(cons: seq<real>, num: string): Outcome<seq<real>>
  {
    var q := Quarters(num);
    match LevelOf(cons, q[0])
    case Err(e) => Err(e)
    case Ok(x1) =>
      match LevelOf(cons, q[1])
      case Err(e) => Err(e)
      case Ok(x2) =>
        match LevelOf(cons, q[2])
        case Err(e) => Err(e)
        case Ok(x3) =>
          match LevelOf(cons, q[3])
          case Err(e) => Err(e)
          case Ok(x4) => Ok([x1, x2, x3, x4])
  }

  function ModulateFrom(cons: seq<real>, rest: seq<string>): Outcome<seq<real>>
    decreases |rest|
  {
    if rest == [] then Ok([])
    else
      match Modulate4(cons, rest[0])
      case Err(e) => Err(e)
      case Ok(four) => Then(four, ModulateFrom(cons, rest[1..]))
  }

  /** A successful modulation emits exactly four levels per input string. */
  lemma {:induction false} ModulationLength(cons: seq<real>, bits: seq<string>)
    requires ModulateFrom(cons, bits).Ok?
    ensures |ModulateFrom(cons, bits).value| == 4 * |bits|
  {
    if bits != [] {
      ModulationLength(cons, bits[1..]);
    }
  }

  /** The levels of string k sit at positions 4k .. 4k+3 and are `Modulate4` of it. */
  lemma {:induction false} ModulationBlocks(cons: seq<real>, bits: seq<string>, k: int)
    requires ModulateFrom(cons, bits).Ok? && 0 <= k < |bits|
    ensures Modulate4(cons, bits[k]).Ok?
    ensures 4 * k + 4 <= |ModulateFrom(cons, bits).value|
    ensures ModulateFrom(cons, bits).value[4 * k .. 4 * k + 4] == Modulate4(cons, bits[k]).value
  {
    ModulationLength(cons, bits);
    ModulateFirst(cons, bits);
    if k > 0 {
      ModulationBlocks(cons, bits[1..], k - 1);
      assert bits[1..][k - 1] == bits[k];
      BlockOfTail(Modulate4(cons, bits[0]).value, ModulateFrom(cons, bits[1..]).value, k);
    }
  }

  /** A successful modulation is the first string's four levels followed by the rest's. */
  lemma ModulateFirst(cons: seq<real>, bits: seq<string>)
    requires ModulateFrom(cons, bits).Ok? && bits != []
    ensures Modulate4(cons, bits[0]).Ok? && ModulateFrom(cons, bits[1..]).Ok?
    ensures ModulateFrom(cons, bits).value == Modulate4(cons, bits[0]).value + ModulateFrom(cons, bits[1..]).value
    ensures |Modulate4(cons, bits[0]).value| == 4
  {
  }

  lemma BlockOfTail(four: seq<real>, tail: seq<real>, k: int)
    requires |four| == 4 && 1 <= k && 4 * k <= |tail|
    ensures (four + tail)[4 * k .. 4 * k + 4] == tail[4 * (k - 1) .. 4 * (k - 1) + 4]
  {
  }

  /** What `digital_modulation(bits, N)` returns or raises. */
  function Modulation(bits: seq<string>, n: int, d: real): Outcome<seq<real>>
  {
    match Constellation(n, d)
    case Err(e) => Err(e)
    case Ok(cons) => ModulateFrom(cons, bits)
  }

  /** `digital_modulation`: four levels per string, appended in order. */
  method DigitalModulation(bits: seq<string>, n: int, d: real) returns (res: Outcome<seq<real>>)
    ensures res == Modulation(bits, n, d)
  {
    var c := Constellation(n, d);
    if c.Err? {
      return Err(c.error);
    }
    var cons := c.value;
    var out: seq<real> := [];
    var rest := bits;
    ThenEmpty(ModulateFrom(cons, bits));
    while rest != []
      invariant Modulation(bits, n, d) == Then(out, ModulateFrom(cons, rest))
      decreases |rest|
    {
      var r := ModulateString(cons, rest[0]);
      if r.Err? {
        ModulateFails(cons, out, rest, r.error);
        return Err(r.error);
      }
      var four := r.value;
      ModulateAdvance(cons, out, rest, four);
      out := out + four;
      rest := rest[1..];
    }
    assert out + [] == out;
    return Ok(out);
  }

  /** The body of `digital_modulation`'s loop: the four quarters of `num`, looked up in turn. */
  method ModulateString(cons: seq<real>, num: string) returns (r: Outcome<seq<real>>)
    ensures r == Modulate4(cons, num)
  {
    var x1 := LevelOf(cons, Slice(num, 0, |num| / 4));
    if x1.Err? {
      return Err(x1.error);
    }
    var x2 := LevelOf(cons, Slice(num, |num| / 4, |num| / 2));
    if x2.Err? {
      return Err(x2.error);
    }
    var x3 := LevelOf(cons, Slice(num, |num| / 2, (|num| / 4) * 3));
    if x3.Err? {
      return Err(x3.error);
    }
    var x4 := LevelOf(cons, Slice(num, (|num| / 4) * 3, |num|));
    if x4.Err? {
      return Err(x4.error);
    }
    return Ok([x1.value, x2.value, x3.value, x4.value]);
  }

  lemma ModulateFails(cons: seq<real>, out: seq<real>, rest: seq<string>, e: PamError)
    requires rest != [] && Modulate4(cons, rest[0]) == Err(e)
    ensures Then(out, ModulateFrom(cons, rest)) == Err(e)
  {
  }

  lemma ModulateAdvance(cons: seq<real>, out: seq<real>, rest: seq<string>, four: seq<real>)
    requires rest != [] && Modulate4(cons, rest[0]) == Ok(four)
    ensures Then(out, ModulateFrom(cons, rest)) == Then(out + four, ModulateFrom(cons, rest[1..]))
  {
    ThenAssoc(out, four, ModulateFrom(cons, rest[1..]));
  }

  // ---------------------------------------------------------------------------
  // The square wave: create_message and decode_message

  /** `k` copies of one level. */
  function Copies(x: real, k: nat): (c: seq<real>)
    ensures |c| == k
  {
    seq(k, _ => x)
  }

  /** `np.repeat(symbols, k)` for k >= 0: each level k times, in order. */
  function Repeat(symbols: seq<real>, k: nat): seq<real>
  {
    if symbols == [] then [] else Copies(symbols[0], k) + Repeat(symbols[1..], k)
  }

  /** `create_message(symbols, K)`: numpy refuses a negative repeat count. */
  function CreateMessage(symbols: seq<real>, k: int): (r: Outcome<seq<real>>)
    ensures r.Err? <==> k < 0
  {
    if k < 0 then Err(NegativeRepeat) else Ok(Repeat(symbols, k))
  }

  lemma {:induction false} RepeatLength(symbols: seq<real>, k: nat)
    ensures |Repeat(symbols, k)| == |symbols| * k
  {
    if symbols != [] {
      RepeatLength(symbols[1..], k);
      assert |symbols| * k == k + (|symbols| - 1) * k;
    }
  }

  lemma DivShift(i: int, k: int)
    requires k > 0 && i >= k
    ensures (i - k) / k == i / k - 1
  {
    var q, r := (i - k) / k, (i - k) % k;
    assert i == k * (q + 1) + r;
    DivUnique(i, k, q + 1, r);
  }

  /** Division with remainder has one answer (the quotient half). */
  lemma DivUnique(x: int, n: int, a: int, b: int)
    requires n > 0 && 0 <= b < n && x == n * a + b
    ensures x / n == a
  {
    var q, r := x / n, x % n;
    var k := a - q;
    assert n * k == r - b;
    MulBounds(n, k);
  }

  lemma {:induction false} RepeatElement(symbols: seq<real>, k: nat, i: int)
    requires k > 0 && 0 <= i < |Repeat(symbols, k)|
    ensures symbols != [] && 0 <= i / k < |symbols| && Repeat(symbols, k)[i] == symbols[i / k]
  {
    if symbols == [] {
      assert false;
    } else if i < k {
      DivUnique(i, k, 0, i);
    } else {
      RepeatElement(symbols[1..], k, i - k);
      DivShift(i, k);
    }
  }

  /** The square wave has `len(symbols) * K` samples, and sample i carries symbol i div K. */
  lemma CreateMessageShape(symbols: seq<real>, k: int)
    requires k >= 0
    ensures CreateMessage(symbols, k).Ok?
    ensures |CreateMessage(symbols, k).value| == |symbols| * k
    ensures forall i :: 0 <= i < |symbols| * k ==> CreateMessage(symbols, k).value[i] == symbols[i / k]
  {
    RepeatLength(symbols, k);
    if k > 0 {
      forall i | 0 <= i < |symbols| * k
        ensures i / k < |symbols| && Repeat(symbols, k)[i] == symbols[i / k]
      {
        RepeatElement(symbols, k, i);
      }
    }
  }

  function Sum(xs: seq<real>): real
  {
    if xs == [] then 0.0 else xs[0] + Sum(xs[1..])
  }

  /** `np.average` of a non-empty block. */
  function Mean(xs: seq<real>): real
    requires |xs| > 0
  {
    Sum(xs) / (|xs| as real)
  }

  function Min(a: int, b: int): int
  {
    if a < b then a else b
  }

  /** The averages of consecutive blocks of `k` samples; the last block holds what is left. */
  function BlockMeans(m: seq<real>, k: int): seq<real>
    requires k >= 1
    decreases |m|
  {
    if m == [] then [] else
      var h := Min(k, |m|);
      [Mean(m[..h])] + BlockMeans(m[h..], k)
  }

  /** What `decode_message(m, K, N)` returns; for K < 1 on a non-empty message its loop
      never ends (K = 0 never advances, a negative K walks backwards), modelled as an error. */
  function Decoded(m: seq<real>, k: int): Outcome<seq<real>>
  {
    if m == [] then Ok([])
    else if k < 1 then Err(NonTerminating)
    else Ok(BlockMeans(m, k))
  }

  /** The block means still to come once the loop has reached sample `i`. */
  function Remaining(m: seq<real>, k: int, i: nat): seq<real>
  {
    if i >= |m| || k < 1 then [] else BlockMeans(m[i..], k)
  }

  /** `decode_message`: the average of `m[i:i+K]` for i = 0, K, 2K, ... */
  method DecodeMessage(m: seq<real>, k: int) returns (res: Outcome<seq<real>>)
    ensures res == Decoded(m, k)
  {
    if k < 1 && |m| > 0 {
      return Err(NonTerminating);
    }
    var symb: seq<real> := [];
    var i := 0;
    assert m[0..] == m;
    assert [] + Remaining(m, k, 0) == Remaining(m, k, 0);
    while i < |m|
      invariant 0 <= i
      invariant Decoded(m, k) == Ok(symb + Remaining(m, k, i))
      decreases |m| - i
    {
      var block := m[i..Min(i + k, |m|)];
      DecodeAdvance(m, k, i, symb, block);
      symb := symb + [Mean(block)];
      i := i + k;
    }
    assert symb + [] == symb;
    return Ok(symb);
  }

  lemma DecodeAdvance(m: seq<real>, k: int, i: nat, symb: seq<real>, block: seq<real>)
    requires k >= 1 && i < |m| && block == m[i..Min(i + k, |m|)]
    ensures symb + Remaining(m, k, i) == (symb + [Mean(block)]) + Remaining(m, k, i + k)
  {
    BlockStep(m, k, i);
  }

  lemma BlockStep(m: seq<real>, k: int, i: nat)
    requires k >= 1 && i < |m|
    ensures Remaining(m, k, i) == [Mean(m[i..Min(i + k, |m|)])] + Remaining(m, k, i + k)
  {
    var h := Min(k, |m| - i);
    assert m[i..][..h] == m[i..Min(i + k, |m|)];
    if i + k < |m| {
      assert m[i..][h..] == m[i + k..];
    } else {
      assert m[i..][h..] == [];
      assert BlockMeans(m[i..][h..], k) == [];
    }
  }

  /** `decode_message` returns ceil(len(m) / K) means. */
  lemma {:induction false} DecodedLength(m: seq<real>, k: int)
    requires k >= 1
    ensures |BlockMeans(m, k)| == (|m| + k - 1) / k
  {
    if m == [] {
      DivUnique(k - 1, k, 0, k - 1);
    } else if |m| <= k {
      DivUnique(|m| + k - 1, k, 1, |m| - 1);
    } else {
      DecodedLength(m[k..], k);
      DivShift(|m| + k - 1, k);
    }
  }

  /** Mean j is the average of samples jK .. min(jK + K, len(m)) - 1: full blocks, then the leftover. */
  lemma {:induction false} BlockMeanElement(m: seq<real>, k: int, j: nat)
    requires k >= 1 && j < |BlockMeans(m, k)|
    ensures j * k < |m| && BlockMeans(m, k)[j] == Mean(m[j * k..Min(j * k + k, |m|)])
  {
    var h := Min(k, |m|);
    if j > 0 {
      assert BlockMeans(m, k)[j] == BlockMeans(m[h..], k)[j - 1];
      assert m[h..] != [];
      BlockMeanElement(m[h..], k, j - 1);
      var a, b := (j - 1) * k, j * k;
      MulStep(j, k);
      assert h == k;
      SliceOfSuffix(m, k, a, Min(a + k, |m| - k));
      assert k + Min(a + k, |m| - k) == Min(b + k, |m|);
    }
  }

  lemma MulStep(j: int, k: int)
    requires j >= 1 && k >= 1
    ensures 0 <= (j - 1) * k && (j - 1) * k + k == j * k
  {
  }

  lemma SliceOfSuffix(m: seq<real>, h: nat, a: nat, b: nat)
    requires h <= |m| && a <= b <= |m| - h
    ensures m[h..][a..b] == m[h + a..h + b]
  {
  }

  lemma {:induction false} SumCopies(x: real, k: nat)
    ensures Sum(Copies(x, k)) == (k as real) * x
  {
    if k > 0 {
      assert Copies(x, k)[1..] == Copies(x, k - 1);
      SumCopies(x, k - 1);
    }
  }

  lemma MeanCopies(x: real, k: nat)
    requires k >= 1
    ensures Mean(Copies(x, k)) == x
  {
    SumCopies(x, k);
  }

  /** Averaging undoes the repetition: `decode_message(create_message(s, K), K, N) == s`. */
  lemma {:induction false} DecodeRepeat(symbols: seq<real>, k: int)
    requires k >= 1
    ensures BlockMeans(Repeat(symbols, k), k) == symbols
  {
    if symbols != [] {
      var w := Repeat(symbols, k);
      var c := Copies(symbols[0], k);
      assert w == c + Repeat(symbols[1..], k);
      assert w[..k] == c && w[k..] == Repeat(symbols[1..], k);
      MeanCopies(symbols[0], k);
      DecodeRepeat(symbols[1..], k);
      assert BlockMeans(w, k) == [symbols[0]] + symbols[1..];
    }
  }

  lemma DecodeCreate(symbols: seq<real>, k: int)
    requires k >= 1
    ensures Decoded(CreateMessage(symbols, k).value, k) == Ok(symbols)
  {
    DecodeRepeat(symbols, k);
  }

  // ---------------------------------------------------------------------------
  // Nearest-level detection: detect_pam_symbol

  function Distance(x: real, y: real): real
  {
    if x >= y then x - y else y - x
  }

  /** `np.argmin` of the distances to `x` over the first `k` levels: a strictly smaller
      distance is needed to move past an earlier index. */
  function NearestIn(cons: seq<real>, x: real, k: nat): (j: nat)
    requires 1 <= k <= |cons|
    ensures j < k
  {
    if k == 1 then 0
    else
      var b := NearestIn(cons, x, k - 1);
      if Distance(cons[k - 1], x) < Distance(cons[b], x) then k - 1 else b
  }

  function Nearest(cons: seq<real>, x: real): (j: nat)
    requires |cons| > 0
    ensures j < |cons|
  {
    NearestIn(cons, x, |cons|)
  }

  lemma {:induction false} NearestInIsFirstMinimum(cons: seq<real>, x: real, k: nat)
    requires 1 <= k <= |cons|
    ensures forall i :: 0 <= i < k ==> Distance(cons[NearestIn(cons, x, k)], x) <= Distance(cons[i], x)
    ensures forall i :: 0 <= i < NearestIn(cons, x, k) ==> Distance(cons[NearestIn(cons, x, k)], x) < Distance(cons[i], x)
  {
    if k > 1 {
      NearestInIsFirstMinimum(cons, x, k - 1);
    }
  }

  /** The detected index is the lowest one at least distance from `x`: no level is nearer,
      and every earlier level is strictly farther. */
  lemma NearestIsArgmin(cons: seq<real>, x: real)
    requires |cons| > 0
    ensures forall i :: 0 <= i < |cons| ==> Distance(cons[Nearest(cons, x)], x) <= Distance(cons[i], x)
    ensures forall i :: 0 <= i < Nearest(cons, x) ==> Distance(cons[Nearest(cons, x)], x) < Distance(cons[i], x)
  {
    NearestInIsFirstMinimum(cons, x, |cons|);
  }

  /** On distinct levels, a level is detected as itself. */
  lemma NearestOfLevel(cons: seq<real>, i: nat)
    requires StrictlyIncreasing(cons) && i < |cons|
    ensures Nearest(cons, cons[i]) == i
  {
    NearestIsArgmin(cons, cons[i]);
    var j := Nearest(cons, cons[i]);
    assert Distance(cons[j], cons[i]) <= 0.0;
  }

  function DetectAll(cons: seq<real>, xs: seq<real>): seq<real>
    requires |cons| > 0
    decreases |xs|
  {
    if xs == [] then [] else [cons[Nearest(cons, xs[0])]] + DetectAll(cons, xs[1..])
  }

  /** What `detect_pam_symbol(N, received)` returns or raises, for real-valued samples. */
  function Detected(n: int, d: real, received: seq<real>): Outcome<seq<real>>
  {
    match Constellation(n, d)
    case Err(e) => Err(e)
    case Ok(cons) => Ok(DetectAll(cons, received))
  }

  /** `detect_pam_symbol`: each sample replaced by its nearest level. */
  method DetectPamSymbol(n: int, d: real, received: seq<real>) returns (res: Outcome<seq<real>>)
    ensures res == Detected(n, d, received)
  {
    var c := Constellation(n, d);
    if c.Err? {
      return Err(c.error);
    }
    var cons := c.value;
    var out: seq<real> := [];
    var rest := received;
    assert [] + DetectAll(cons, received) == DetectAll(cons, received);
    while rest != []
      invariant DetectAll(cons, received) == out + DetectAll(cons, rest)
      decreases |rest|
    {
      var m := Nearest(cons, rest[0]);
      DetectAdvance(cons, out, rest, m);
      out := out + [cons[m]];
      rest := rest[1..];
    }
    assert out + [] == out;
    return Ok(out);
  }

  lemma DetectAdvance(cons: seq<real>, out: seq<real>, rest: seq<real>, m: nat)
    requires |cons| > 0 && rest != [] && m == Nearest(cons, rest[0])
    ensures out + DetectAll(cons, rest) == (out + [cons[m]]) + DetectAll(cons, rest[1..])
  {
  }

  /** Detection keeps the length, and output i is the nearest level to input i. */
  lemma {:induction false} DetectShape(cons: seq<real>, xs: seq<real>)
    requires |cons| > 0
    ensures |DetectAll(cons, xs)| == |xs|
    ensures forall i :: 0 <= i < |xs| ==> DetectAll(cons, xs)[i] == cons[Nearest(cons, xs[i])]
  {
    if xs != [] {
      DetectShape(cons, xs[1..]);
    }
  }

  /** Samples that are already levels come out unchanged. */
  lemma {:induction false} DetectFixed(cons: seq<real>, xs: seq<real>)
    requires |cons| > 0 && StrictlyIncreasing(cons)
    requires forall i :: 0 <= i < |xs| ==> xs[i] in cons
    ensures DetectAll(cons, xs) == xs
  {
    if xs != [] {
      var j :| 0 <= j < |cons| && cons[j] == xs[0];
      NearestOfLevel(cons, j);
      DetectFixed(cons, xs[1..]);
      assert xs == [xs[0]] + xs[1..];
    }
  }

  // ---------------------------------------------------------------------------
  // Levels back to bit strings: symbol_to_bits

  /** `int(np.log2(N))` for N >= 1. */
  function Log2Floor(n: nat): nat
    requires n >= 1
  {
    if n < 2 then 0 else 1 + Log2Floor(n / 2)
  }

  /** `np.where(cons == s)[0][0]`: the first index holding `s`, if any. */
  function IndexOf(cons: seq<real>, s: real): (r: Option<nat>)
    ensures r.Some? ==> r.value < |cons| && cons[r.value] == s
    ensures r.Some? ==> forall j :: 0 <= j < r.value ==> cons[j] != s
    ensures r.None? <==> s !in cons
    decreases |cons|
  {
    if cons == [] then None
    else if cons[0] == s then Some(0)
    else
      match IndexOf(cons[1..], s)
      case None => None
      case Some(j) => Some(j + 1)
  }

  /** On distinct levels, looking a level up gives its own index. */
  lemma IndexOfLevel(cons: seq<real>, i: nat)
    requires StrictlyIncreasing(cons) && i < |cons|
    ensures IndexOf(cons, cons[i]) == Some(i)
  {
    var r := IndexOf(cons, cons[i]);
    assert r.Some? && cons[r.value] == cons[i];
  }

  /** Python's `s[:l]`: a negative `l` drops that many characters from the end. */
  function Prefix(s: string, l: int): string
  {
    if l >= 0 then (if l < |s| then s[..l] else s)
    else if |s| + l > 0 then s[..|s| + l] else []
  }

  /** The bits `symbol_to_bits` writes for level index `j`: `zeros[:L - len(b)] + b`
      with `b = bin(j)[2:]`. */
  function IndexBits(width: nat, j: nat): string
  {
    var b := Digits(j, 2);
    Prefix(Zeros(width), width - |b|) + b
  }

  /** The bits of every symbol, or NotALevel for the first symbol that is no level. */
  function CodesOf(cons: seq<real>, width: nat, symbols: seq<real>): Outcome<seq<string>>
    decreases |symbols|
  {
    if symbols == [] then Ok([])
    else
      match IndexOf(cons, symbols[0])
      case None => Err(NotALevel)
      case Some(j) => Then([IndexBits(width, j)], CodesOf(cons, width, symbols[1..]))
  }

  /** Each complete group of four codes joined into one string; a partial group is dropped. */
  function Groups(codes: seq<string>): seq<string>
    decreases |codes|
  {
    if |codes| < 4 then [] else [codes[0] + codes[1] + codes[2] + codes[3]] + Groups(codes[4..])
  }

  /** What `symbol_to_bits(N, symbols)` returns or raises. */
  function SymbolBits(n: int, d: real, symbols: seq<real>): Outcome<seq<string>>
  {
    if n <= 0 then Err(BadLevels)
    else
      match Constellation(n, d)
      case Err(e) => Err(e)
      case Ok(cons) =>
        match CodesOf(cons, Log2Floor(n), symbols)
        case Err(e) => Err(e)
        case Ok(codes) => Ok(Groups(codes))
  }

  /** The strings still to come when `phase` symbols of the current group have been read
      into `num` and `codes` belong to the symbols not read yet. */
  function GroupsFrom(phase: nat, num: string, codes: seq<string>): seq<string>
    requires phase < 4
    decreases |codes|
  {
    if phase == 0 then Groups(codes)
    else if codes == [] then []
    else if phase == 3 then [num + codes[0]] + Groups(codes[1..])
    else GroupsFrom(phase + 1, num + codes[0], codes[1..])
  }

  function Pending(cons: seq<real>, width: nat, phase: nat, num: string, rest: seq<real>): Outcome<seq<string>>
    requires phase < 4
  {
    match CodesOf(cons, width, rest)
    case Err(e) => Err(e)
    case Ok(codes) => Ok(GroupsFrom(phase, num, codes))
  }

  /** `symbol_to_bits`: counter `i` and accumulator `num` gather the bits of four
      symbols at a time. */
  method SymbolToBits(n: int, d: real, symbols: seq<real>) returns (res: Outcome<seq<string>>)
    ensures res == SymbolBits(n, d, symbols)
  {
    if n <= 0 {
      return Err(BadLevels);
    }
    var width := Log2Floor(n);
    var zeros := Zeros(width);
    var cons := Constellation(n, d).value;
    var out: seq<string> := [];
    var num := "";
    var i := 0;
    var rest := symbols;
    BitsStart(n, d, symbols);
    while rest != []
      invariant SymbolBits(n, d, symbols) == Then(out, Pending(cons, width, i % 4, num, rest))
      decreases |rest|
    {
      var j := IndexOf(cons, rest[0]);
      if j.None? {
        BitsFail(cons, width, out, i % 4, num, rest);
        return Err(NotALevel);
      }
      var num' := ReadSymbol(i, num, zeros, width, j.value);
      var out' := EmitGroup(i, out, num');
      PendingStep(cons, width, out, i, num, rest, j.value, num', out');
      out, num, i, rest := out', num', i + 1, rest[1..];
    }
    BitsDone(out, i % 4, num);
    return Ok(out);
  }

  lemma BitsStart(n: int, d: real, symbols: seq<real>)
    requires n > 0
    ensures SymbolBits(n, d, symbols) == Then([], Pending(Constellation(n, d).value, Log2Floor(n), 0, "", symbols))
  {
    ThenEmpty(Pending(Constellation(n, d).value, Log2Floor(n), 0, "", symbols));
  }

  lemma BitsFail(cons: seq<real>, width: nat, out: seq<string>, phase: nat, num: string, rest: seq<real>)
    requires phase < 4 && rest != [] && IndexOf(cons, rest[0]).None?
    ensures Then(out, Pending(cons, width, phase, num, rest)) == Err(NotALevel)
  {
  }

  lemma BitsDone(out: seq<string>, phase: nat, num: string)
    requires phase < 4
    ensures out + GroupsFrom(phase, num, []) == out
  {
    assert out + [] == out;
  }

  /** One symbol's share of the loop body: a new group starts with an empty `num`, and
      the symbol's bits are appended to it. */
  method ReadSymbol(i: int, num: string, zeros: string, width: nat, j: nat) returns (num': string)
    requires zeros == Zeros(width)
    ensures num' == (if i % 4 == 0 then "" else num) + IndexBits(width, j)
  {
    num' := num;
    if i % 4 == 0 {
      num' := "";
    }
    var b := Digits(j, 2);
    var l := width - |b|;
    ghost var start := num';
    num' := num' + Prefix(zeros, l);
    num' := num' + b;
    assert (start + Prefix(zeros, l)) + b == start + (Prefix(zeros, l) + b);
  }

  /** The fourth symbol of a group completes it, and `num` is appended to the result. */
  method EmitGroup(i: int, out: seq<string>, num: string) returns (out': seq<string>)
    ensures out' == if i % 4 == 3 then out + [num] else out
  {
    out' := out;
    if i % 4 == 3 {
      out' := out' + [num];
    }
  }

  lemma PendingStep(cons: seq<real>, width: nat, out: seq<string>, i: int, num: string, rest: seq<real>,
                    j: nat, num': string, out': seq<string>)
    requires rest != [] && IndexOf(cons, rest[0]) == Some(j)
    requires num' == (if i % 4 == 0 then "" else num) + IndexBits(width, j)
    requires out' == if i % 4 == 3 then out + [num'] else out
    ensures Then(out, Pending(cons, width, i % 4, num, rest)) == Then(out', Pending(cons, width, (i + 1) % 4, num', rest[1..]))
  {
    var phase := i % 4;
    assert (phase + 1) % 4 == (i + 1) % 4;
    var code := IndexBits(width, j);
    var tail := CodesOf(cons, width, rest[1..]);
    assert CodesOf(cons, width, rest) == Then([code], tail);
    if tail.Ok? {
      GroupsStep(phase, num, code, tail.value);
      EmitAssoc(out, out', phase, num', GroupsFrom((phase + 1) % 4, num', tail.value));
    }
  }

  lemma EmitAssoc(out: seq<string>, out': seq<string>, phase: int, num': string, g: seq<string>)
    requires out' == if phase == 3 then out + [num'] else out
    ensures out + ((if phase == 3 then [num'] else []) + g) == out' + g
  {
    var emitted := if phase == 3 then [num'] else [];
    assert out' == out + emitted;
    assert out + (emitted + g) == (out + emitted) + g;
  }

  /** Reading one more code: the group is either still open or complete and emitted. */
  lemma GroupsStep(phase: nat, num: string, code: string, codes: seq<string>)
    requires phase < 4
    ensures GroupsFrom(phase, num, [code] + codes)
         == (if phase == 3 then [num + code] else [])
            + GroupsFrom((phase + 1) % 4, (if phase == 0 then "" else num) + code, codes)
  {
    var all := [code] + codes;
    assert all[1..] == codes;
    if phase == 0 {
      GroupsOpen(code, codes);
      assert "" + code == code;
    } else if phase == 3 {
      assert [] + GroupsFrom(0, num + code, codes) == Groups(codes);
    }
  }

  lemma GroupsOpen(code: string, codes: seq<string>)
    ensures Groups([code] + codes) == [] + GroupsFrom(1, code, codes)
  {
    var all := [code] + codes;
    assert [] + GroupsFrom(1, code, codes) == GroupsFrom(1, code, codes);
    if |codes| >= 3 {
      assert all[4..] == codes[3..];
      assert Groups(all) == [code + codes[0] + codes[1] + codes[2]] + Groups(codes[3..]);
      assert codes[1..][0] == codes[1] && codes[1..][1..] == codes[2..];
      assert codes[2..][0] == codes[2] && codes[2..][1..] == codes[3..];
      assert GroupsFrom(3, code + codes[0] + codes[1], codes[2..]) == [code + codes[0] + codes[1] + codes[2]] + Groups(codes[3..]);
    } else {
      assert Groups(all) == [];
      if codes != [] {
        if |codes| == 2 {
          assert codes[1..][1..] == [];
          assert GroupsFrom(1, code, codes) == GroupsFrom(2, code + codes[0], codes[1..]);
          assert GroupsFrom(2, code + codes[0], codes[1..]) == GroupsFrom(3, code + codes[0] + codes[1..][0], []);
        } else {
          assert codes[1..] == [];
        }
      }
    }
  }

  /** One string per complete group of four symbols; a trailing partial group is dropped. */
  lemma {:induction false} GroupsCount(codes: seq<string>)
    ensures |Groups(codes)| == |codes| / 4
  {
    if |codes| >= 4 {
      GroupsCount(codes[4..]);
    }
  }

  /** Groups of codes of one width are four times as wide. */
  lemma {:induction false} GroupsWidth(codes: seq<string>, width: nat)
    requires forall i :: 0 <= i < |codes| ==> |codes[i]| == width
    ensures forall k :: 0 <= k < |Groups(codes)| ==> |Groups(codes)[k]| == 4 * width
  {
    if |codes| >= 4 {
      GroupsWidth(codes[4..], width);
    }
  }

  /** `symbol_to_bits` raises exactly when some symbol is not exactly a level; otherwise
      it has the bits of every symbol. */
  lemma {:induction false} CodesOfShape(cons: seq<real>, width: nat, symbols: seq<real>)
    ensures CodesOf(cons, width, symbols).Err? <==> exists i :: 0 <= i < |symbols| && symbols[i] !in cons
    ensures CodesOf(cons, width, symbols).Ok? ==> |CodesOf(cons, width, symbols).value| == |symbols|
    ensures CodesOf(cons, width, symbols).Ok? ==> forall i :: 0 <= i < |symbols| ==>
              CodesOf(cons, width, symbols).value[i] == IndexBits(width, IndexOf(cons, symbols[i]).value)
  {
    if symbols != [] {
      CodesOfShape(cons, width, symbols[1..]);
      if symbols[0] in cons {
        if exists i :: 0 <= i < |symbols[1..]| && symbols[1..][i] !in cons {
          var i :| 0 <= i < |symbols[1..]| && symbols[1..][i] !in cons;
          assert symbols[i + 1] !in cons;
        }
      }
    }
  }

  /** For an index below 2^L the bits are the index in binary, zero-padded to L digits. */
  lemma IndexBitsPadded(width: nat, j: nat)
    requires width >= 1 && j < Pow(2, width)
    ensures IndexBits(width, j) == ZeroPad(Digits(j, 2), width)
  {
    var b := Digits(j, 2);
    DigitsValueOfDigits(j, 2);
    DigitsLength(j, width);
    assert Prefix(Zeros(width), width - |b|) == Zeros(width - |b|);
  }

  lemma DigitsLength(j: nat, width: nat)
    requires width >= 1 && j < Pow(2, width)
    ensures |Digits(j, 2)| <= width
  {
    PaddedIsFixed(j, width);
  }

  /** For N = 2^L every string `symbol_to_bits` returns has 4L characters. */
  lemma SymbolBitsWidth(width: nat, d: real, symbols: seq<real>)
    requires width >= 1 && SymbolBits(Pow(2, width), d, symbols).Ok?
    ensures |SymbolBits(Pow(2, width), d, symbols).value| == |symbols| / 4
    ensures forall k :: 0 <= k < |SymbolBits(Pow(2, width), d, symbols).value| ==>
              |SymbolBits(Pow(2, width), d, symbols).value[k]| == 4 * width
  {
    var n := Pow(2, width);
    var cons := Constellation(n, d).value;
    Log2OfPower(width);
    CodesOfShape(cons, width, symbols);
    var codes := CodesOf(cons, width, symbols).value;
    forall i | 0 <= i < |codes| ensures |codes[i]| == width {
      var j := IndexOf(cons, symbols[i]).value;
      assert j < n;
      IndexBitsPadded(width, j);
      DigitsLength(j, width);
    }
    GroupsCount(codes);
    GroupsWidth(codes, width);
  }

  lemma {:induction false} Log2OfPower(width: nat)
    ensures Log2Floor(Pow(2, width)) == width
  {
    if width > 0 {
      Log2OfPower(width - 1);
      assert Pow(2, width) / 2 == Pow(2, width - 1);
    }
  }

  // ---------------------------------------------------------------------------
  // symbol_to_bits inverts digital_modulation for N = 2^L

  /** A string of 4L binary digits, the input `digital_modulation` is meant for. */
  predicate Word(num: string, width: nat)
  {
    |num| == 4 * width && IsDigits(num, 2)
  }

  /** The quarters of every string, in order. */
  function QuarterList(bits: seq<string>): seq<string>
  {
    if bits == [] then [] else Quarters(bits[0]) + QuarterList(bits[1..])
  }

  lemma QuartersOfWord(num: string, width: nat)
    requires width >= 1 && Word(num, width)
    ensures Quarters(num) == [num[..width], num[width..2 * width], num[2 * width..3 * width], num[3 * width..]]
    ensures Quarters(num)[0] + Quarters(num)[1] + Quarters(num)[2] + Quarters(num)[3] == num
    ensures forall k :: 0 <= k < 4 ==> |Quarters(num)[k]| == width && IsDigits(Quarters(num)[k], 2)
  {
    var q := |num| / 4;
    assert q == width && |num| / 2 == 2 * width && q * 3 == 3 * width;
    assert Slice(num, 0, q) == num[..width];
    assert Slice(num, q, |num| / 2) == num[width..2 * width];
    assert Slice(num, |num| / 2, q * 3) == num[2 * width..3 * width];
    assert Slice(num, q * 3, |num|) == num[3 * width..];
    assert num[..width] + num[width..2 * width] + num[2 * width..3 * width] + num[3 * width..] == num;
  }

  /** A quarter of L binary digits names a level of a 2^L-level constellation. */
  lemma LevelOfQuarter(cons: seq<real>, width: nat, q: string)
    requires |cons| == Pow(2, width) && width >= 1 && |q| == width && IsDigits(q, 2)
    ensures DigitsValue(q, 2) < |cons|
    ensures LevelOf(cons, q) == Ok(cons[DigitsValue(q, 2)])
  {
    DigitsValueBound(q);
  }

  /** ... and that level's bits are the quarter again. */
  lemma BitsOfQuarter(cons: seq<real>, width: nat, q: string)
    requires StrictlyIncreasing(cons)
    requires |cons| == Pow(2, width) && width >= 1 && |q| == width && IsDigits(q, 2)
    ensures DigitsValue(q, 2) < |cons|
    ensures IndexOf(cons, cons[DigitsValue(q, 2)]) == Some(DigitsValue(q, 2))
    ensures IndexBits(width, DigitsValue(q, 2)) == q
  {
    var v := DigitsValue(q, 2);
    DigitsValueBound(q);
    IndexOfLevel(cons, v);
    IndexBitsPadded(width, v);
    FormatOfBinaryString(q);
  }

  lemma CodesCons(cons: seq<real>, width: nat, x: real, rest: seq<real>, j: nat)
    requires IndexOf(cons, x) == Some(j)
    ensures CodesOf(cons, width, [x] + rest) == Then([IndexBits(width, j)], CodesOf(cons, width, rest))
  {
    assert ([x] + rest)[1..] == rest;
  }

  lemma {:induction false} CodesOfQuarters(cons: seq<real>, width: nat, qs: seq<string>, rest: seq<real>)
    requires StrictlyIncreasing(cons) && |cons| == Pow(2, width) && width >= 1
    requires forall k :: 0 <= k < |qs| ==> |qs[k]| == width && IsDigits(qs[k], 2)
    ensures CodesOf(cons, width, LevelsOfQuarters(cons, width, qs) + rest) == Then(qs, CodesOf(cons, width, rest))
  {
    if qs == [] {
      assert LevelsOfQuarters(cons, width, qs) + rest == rest;
      ThenEmpty(CodesOf(cons, width, rest));
    } else {
      var q := qs[0];
      BitsOfQuarter(cons, width, q);
      var v := DigitsValue(q, 2);
      var tail := LevelsOfQuarters(cons, width, qs[1..]) + rest;
      assert LevelsOfQuarters(cons, width, qs) + rest == [cons[v]] + tail;
      CodesCons(cons, width, cons[v], tail, v);
      CodesOfQuarters(cons, width, qs[1..], rest);
      ThenAssoc([q], qs[1..], CodesOf(cons, width, rest));
      assert [q] + qs[1..] == qs;
    }
  }

  /** The levels the quarters name (a proof device). */
  ghost function LevelsOfQuarters(cons: seq<real>, width: nat, qs: seq<string>): (r: seq<real>)
    requires |cons| == Pow(2, width) && width >= 1
    requires forall k :: 0 <= k < |qs| ==> |qs[k]| == width && IsDigits(qs[k], 2)
    ensures |r| == |qs|
  {
    if qs == [] then []
    else
      DigitsValueBound(qs[0]);
      [cons[DigitsValue(qs[0], 2)]] + LevelsOfQuarters(cons, width, qs[1..])
  }

  lemma ModulateWord(cons: seq<real>, width: nat, num: string)
    requires |cons| == Pow(2, width) && width >= 1 && Word(num, width)
    ensures Modulate4(cons, num) == Ok(LevelsOfQuarters(cons, width, Quarters(num)))
  {
    var q := Quarters(num);
    QuartersOfWord(num, width);
    LevelOfQuarter(cons, width, q[0]);
    LevelOfQuarter(cons, width, q[1]);
    LevelOfQuarter(cons, width, q[2]);
    LevelOfQuarter(cons, width, q[3]);
    LevelsOfFour(cons, width, q);
  }

  lemma LevelsOfFour(cons: seq<real>, width: nat, q: seq<string>)
    requires |cons| == Pow(2, width) && width >= 1 && |q| == 4
    requires forall k :: 0 <= k < 4 ==> |q[k]| == width && IsDigits(q[k], 2) && DigitsValue(q[k], 2) < |cons|
    ensures LevelsOfQuarters(cons, width, q)
         == [cons[DigitsValue(q[0], 2)], cons[DigitsValue(q[1], 2)], cons[DigitsValue(q[2], 2)], cons[DigitsValue(q[3], 2)]]
  {
    var q1, q2, q3 := q[1..], q[2..], q[3..];
    assert q1[1..] == q2 && q2[1..] == q3 && q3[1..] == [];
    assert LevelsOfQuarters(cons, width, q3) == [cons[DigitsValue(q[3], 2)]];
    assert LevelsOfQuarters(cons, width, q2) == [cons[DigitsValue(q[2], 2)], cons[DigitsValue(q[3], 2)]];
  }

  lemma {:induction false} RoundTripFrom(cons: seq<real>, width: nat, bits: seq<string>)
    requires StrictlyIncreasing(cons) && |cons| == Pow(2, width) && width >= 1
    requires forall i :: 0 <= i < |bits| ==> Word(bits[i], width)
    ensures ModulateFrom(cons, bits).Ok?
    ensures CodesOf(cons, width, ModulateFrom(cons, bits).value) == Ok(QuarterList(bits))
  {
    if bits == [] {
    } else {
      var num := bits[0];
      QuartersOfWord(num, width);
      ModulateWord(cons, width, num);
      RoundTripFrom(cons, width, bits[1..]);
      var four := LevelsOfQuarters(cons, width, Quarters(num));
      var more := ModulateFrom(cons, bits[1..]).value;
      assert ModulateFrom(cons, bits) == Ok(four + more);
      CodesOfQuarters(cons, width, Quarters(num), more);
    }
  }

  lemma {:induction false} GroupsOfQuarters(bits: seq<string>, width: nat)
    requires width >= 1 && forall i :: 0 <= i < |bits| ==> Word(bits[i], width)
    ensures Groups(QuarterList(bits)) == bits
  {
    if bits != [] {
      var q := Quarters(bits[0]);
      QuartersOfWord(bits[0], width);
      GroupsOfQuarters(bits[1..], width);
      GroupsPrepend(q, QuarterList(bits[1..]));
      assert bits == [bits[0]] + bits[1..];
    }
  }

  lemma GroupsPrepend(q: seq<string>, rest: seq<string>)
    requires |q| == 4
    ensures Groups(q + rest) == [q[0] + q[1] + q[2] + q[3]] + Groups(rest)
  {
    assert (q + rest)[4..] == rest;
  }

  /** For N = 2^L, `symbol_to_bits` recovers every list of 4L-digit binary strings from
      `digital_modulation`'s levels; N = 4 with 8-character strings is the voice chat's case. */
  lemma ModulationRoundTrip(bits: seq<string>, width: nat, d: real)
    requires width >= 1 && d > 0.0
    requires forall i :: 0 <= i < |bits| ==> Word(bits[i], width)
    ensures Modulation(bits, Pow(2, width), d).Ok?
    ensures SymbolBits(Pow(2, width), d, Modulation(bits, Pow(2, width), d).value) == Ok(bits)
  {
    var n := Pow(2, width);
    var cons := Constellation(n, d).value;
    LevelsIncrease(cons, n, d);
    Log2OfPower(width);
    RoundTripFrom(cons, width, bits);
    GroupsOfQuarters(bits, width);
  }

  lemma LevelOfIsLevel(cons: seq<real>, part: string)
    requires LevelOf(cons, part).Ok?
    ensures LevelOf(cons, part).value in cons
  {
  }

  /** Every symbol `digital_modulation` emits is a level. */
  lemma {:induction false} ModulatedAreLevels(cons: seq<real>, bits: seq<string>)
    requires ModulateFrom(cons, bits).Ok?
    ensures forall i :: 0 <= i < |ModulateFrom(cons, bits).value| ==> ModulateFrom(cons, bits).value[i] in cons
  {
    if bits != [] {
      var q := Quarters(bits[0]);
      LevelOfIsLevel(cons, q[0]);
      LevelOfIsLevel(cons, q[1]);
      LevelOfIsLevel(cons, q[2]);
      LevelOfIsLevel(cons, q[3]);
      ModulatedAreLevels(cons, bits[1..]);
    }
  }

  /** The noise-free voice pipeline: modulate, repeat K times, average, detect and map back
      to bits gives the strings back, for N = 2^L and strings of 4L binary digits. */
  lemma VoicePipeline(bits: seq<string>, width: nat, d: real, k: int)
    requires width >= 1 && d > 0.0 && k >= 1
    requires forall i :: 0 <= i < |bits| ==> Word(bits[i], width)
    ensures Modulation(bits, Pow(2, width), d).Ok?
    ensures var symbols := Modulation(bits, Pow(2, width), d).value;
            var received := Decoded(CreateMessage(symbols, k).value, k);
            received == Ok(symbols)
            && Detected(Pow(2, width), d, received.value) == Ok(symbols)
            && SymbolBits(Pow(2, width), d, symbols) == Ok(bits)
  {
    var n := Pow(2, width);
    var cons := Constellation(n, d).value;
    ModulationRoundTrip(bits, width, d);
    var symbols := Modulation(bits, n, d).value;
    DecodeCreate(symbols, k);
    LevelsIncrease(cons, n, d);
    ModulatedAreLevels(cons, bits);
    DetectFixed(cons, symbols);
  }
}
