/** The parts of Python's integer text handling that the codec and the game use:
    `int(s, base)` for parsing, `bin(n)[2:]` and `str(n)` for digits, and the
    format spec `'0{w}b'` for zero-padded binary. */
module Numerals {
  import opened Wrappers

  /** The two bases the source parses and prints in: binary and decimal. */
  predicate Base(base: nat)
  {
    base == 2 || base == 10
  }

  function Pow(b: nat, e: nat): (r: nat)
    ensures b >= 1 ==> r >= 1
  {
    if e == 0 then 1 else b * Pow(b, e - 1)
  }

  /** The value of an ASCII digit character in the given base, if it is one. */
  function DigitValue(ch: char, base: nat): Option<nat>
  {
    if '0' <= ch <= '9' && (ch as int) - ('0' as int) < base then Some((ch as int) - ('0' as int)) else None
  }

  function DigitChar(d: nat): (ch: char)
    requires d < 10
  {
    ((('0' as int) + d) as char)
  }

  predicate IsDigits(s: string, base: nat)
  {
    forall i :: 0 <= i < |s| ==> DigitValue(s[i], base).Some?
  }

  /** The number that a string of digits denotes, most significant digit first. */
  function DigitsValue(s: string, base: nat): nat
    requires IsDigits(s, base)
  {
    if s == [] then 0 else DigitsValue(s[..|s| - 1], base) * base + DigitValue(s[|s| - 1], base).value
  }

  /** Python's `int(s, base)`: an optional sign followed by at least one digit;
      anything else raises ValueError, modelled as None. */
  function ParseInt(s: string, base: nat): (r: Option<int>)
    ensures |s| > 0 && IsDigits(s, base) ==> r == Some(DigitsValue(s, base) as int)
    ensures s == [] ==> r == None
  {
    if |s| > 0 && (s[0] == '-' || s[0] == '+') then
      var body := s[1..];
      if |body| > 0 && IsDigits(body, base) then
        Some(if s[0] == '-' then -(DigitsValue(body, base) as int) else DigitsValue(body, base))
      else None
    else if |s| > 0 && IsDigits(s, base) then Some(DigitsValue(s, base))
    else None
  }

  /** `int(s, base)` on a signed string: a `+` or `-` followed by digits is their value,
      negated after `-`; and a string parses exactly when it is digits, signed or not. */
  lemma ParseSigned(s: string, base: nat)
    ensures |s| > 1 && (s[0] == '-' || s[0] == '+') && IsDigits(s[1..], base) ==>
      ParseInt(s, base) == Some(if s[0] == '-' then -(DigitsValue(s[1..], base) as int) else DigitsValue(s[1..], base) as int)
    ensures ParseInt(s, base).Some? <==>
      || (|s| > 0 && IsDigits(s, base))
      || (|s| > 1 && (s[0] == '-' || s[0] == '+') && IsDigits(s[1..], base))
  {
  }

  /** The digits of `n` without sign or prefix: `bin(n)[2:]` for base 2 and `str(n)` for base 10. */
  function Digits(n: nat, base: nat): (s: string)
    requires Base(base)
    ensures |s| >= 1 && IsDigits(s, base)
  {
    if n < base then
      DigitCharValue(n, base);
      [DigitChar(n)]
    else
      var q, d := n / base, n % base;
      QuotientSmaller(n, base);
      DigitCharValue(d, base);
      var hi := Digits(q, base);
      var s := hi + [DigitChar(d)];
      assert forall i :: 0 <= i < |hi| ==> s[i] == hi[i];
      s
  }

  /** `bin(n)[2:]` and `str(n)` start with '0' only for 0. */
  lemma {:induction false} DigitsLeadingZero(n: nat, base: nat)
    requires Base(base)
    ensures Digits(n, base)[0] == '0' <==> n == 0
  {
    if n >= base {
      QuotientSmaller(n, base);
      DigitsLeadingZero(n / base, base);
      assert Digits(n, base)[0] == Digits(n / base, base)[0];
    }
  }

  lemma DigitCharValue(d: nat, base: nat)
    requires d < base <= 10
    ensures DigitValue(DigitChar(d), base) == Some(d)
  {
  }

  function Zeros(k: nat): (z: string)
    ensures |z| == k && forall i :: 0 <= i < k ==> z[i] == '0'
  {
    seq(k, _ => '0')
  }

  /** Left padding with '0' up to `width` characters; a longer string is left as it is. */
  function ZeroPad(s: string, width: int): (p: string)
    ensures |p| == if |s| < width then width else |s|
  {
    if |s| < width then Zeros(width - |s|) + s else s
  }

  /** Python's `format(v, '0{width}b')`: a negative value keeps its '-' in front of the zero
      padding. The result is at least `width` characters long and `int(_, 2)` reads it back. */
  function FormatBin(v: int, width: int): (s: string)
    ensures |s| >= width
    ensures ParseInt(s, 2) == Some(v)
  {
    if v >= 0 then
      ParsePadded(v, 2, width);
      ZeroPad(Digits(v, 2), width)
    else
      NegativeParse(-v, width);
      "-" + ZeroPad(Digits(-v, 2), width - 1)
  }

  /** `int(_, 2)` reads a '-' before zero-padded binary digits as the negated value. */
  lemma NegativeParse(m: nat, width: int)
    ensures |"-" + ZeroPad(Digits(m, 2), width - 1)| >= width
    ensures ParseInt("-" + ZeroPad(Digits(m, 2), width - 1), 2) == Some(-(m as int))
  {
    var body := ZeroPad(Digits(m, 2), width - 1);
    var s := "-" + body;
    assert s[1..] == body;
    ParsePadded(m, 2, width - 1);
    ParseSigned(s, 2);
  }

  // ---------------------------------------------------------------------------
  // Round trips between digits and values

  lemma {:induction false} DigitsValueOfDigits(n: nat, base: nat)
    requires Base(base)
    ensures DigitsValue(Digits(n, base), base) == n
  {
    if n < base {
      DigitCharValue(n, base);
      assert Digits(n, base)[..0] == [];
    } else {
      QuotientSmaller(n, base);
      DigitsValueOfDigits(n / base, base);
      DigitsValueStep(n, base);
    }
  }

  lemma QuotientSmaller(n: nat, base: nat)
    requires Base(base) && base <= n
    ensures n / base < n && n % base < base
  {
    if base == 2 {} else {}
  }

  lemma DigitsValueStep(n: nat, base: nat)
    requires Base(base) && n >= base
    requires DigitsValue(Digits(n / base, base), base) == n / base
    ensures DigitsValue(Digits(n, base), base) == n
  {
    var q, d := n / base, n % base;
    DigitCharValue(d, base);
    AppendDigit(Digits(q, base), DigitChar(d), base, q, d);
    assert Digits(n, base) == Digits(q, base) + [DigitChar(d)];
    DivMod(n, base);
  }

  lemma DivMod(n: nat, base: nat)
    requires Base(base)
    ensures n == (n / base) * base + n % base
  {
    if base == 2 {} else {}
  }

  lemma AppendDigit(hi: string, c: char, base: nat, v: nat, d: nat)
    requires IsDigits(hi, base) && DigitsValue(hi, base) == v && DigitValue(c, base) == Some(d)
    ensures IsDigits(hi + [c], base)
    ensures DigitsValue(hi + [c], base) == v * base + d
  {
    assert (hi + [c])[..|hi|] == hi;
  }

  lemma {:induction false} LeadingZerosValue(k: nat, s: string, base: nat)
    requires Base(base) && IsDigits(s, base)
    ensures IsDigits(Zeros(k) + s, base)
    ensures DigitsValue(Zeros(k) + s, base) == DigitsValue(s, base)
  {
    var t := Zeros(k) + s;
    assert forall i :: 0 <= i < |t| ==> DigitValue(t[i], base).Some? by {
      forall i | 0 <= i < |t| ensures DigitValue(t[i], base).Some? {
        if i >= k { assert t[i] == s[i - k]; }
      }
    }
    if s == [] {
      assert t == Zeros(k);
      ZerosValue(k, base);
    } else {
      var s' := s[..|s| - 1];
      assert t[..|t| - 1] == Zeros(k) + s';
      LeadingZerosValue(k, s', base);
    }
  }

  lemma {:induction false} ZerosValue(k: nat, base: nat)
    requires Base(base)
    ensures IsDigits(Zeros(k), base) && DigitsValue(Zeros(k), base) == 0
  {
    if k > 0 {
      assert Zeros(k)[..k - 1] == Zeros(k - 1);
      ZerosValue(k - 1, base);
    }
  }

  /** `int(s, base)` reads back what zero-padded `Digits` wrote. */
  lemma ParsePadded(n: nat, base: nat, width: int)
    requires Base(base)
    ensures ParseInt(ZeroPad(Digits(n, base), width), base) == Some(n)
  {
    var d := Digits(n, base);
    DigitsValueOfDigits(n, base);
    if |d| < width {
      LeadingZerosValue(width - |d|, d, base);
    }
  }

  // ---------------------------------------------------------------------------
  // Fixed-width binary strings

  /** The `w` least significant bits of `n`, most significant first (a proof device). */
  ghost function FixedBits(n: nat, w: nat): (s: string)
    ensures |s| == w
  {
    if w == 0 then [] else FixedBits(n / 2, w - 1) + [DigitChar(n % 2)]
  }

  lemma {:induction false} FixedBitsOfValue(s: string)
    requires IsDigits(s, 2)
    ensures FixedBits(DigitsValue(s, 2), |s|) == s
  {
    if s != [] {
      var s' := s[..|s| - 1];
      var c := s[|s| - 1];
      var v' := DigitsValue(s', 2);
      var b := DigitValue(c, 2).value;
      assert DigitsValue(s, 2) == v' * 2 + b;
      assert (v' * 2 + b) / 2 == v' && (v' * 2 + b) % 2 == b;
      assert DigitChar(b) == c;
      FixedBitsOfValue(s');
      assert s == s' + [c];
    }
  }

  lemma {:induction false} FixedBitsOfZero(w: nat)
    ensures FixedBits(0, w) == Zeros(w)
  {
    if w > 0 { FixedBitsOfZero(w - 1); }
  }

  lemma {:induction false} PaddedIsFixed(n: nat, w: nat)
    requires w >= 1 && n < Pow(2, w)
    ensures ZeroPad(Digits(n, 2), w) == FixedBits(n, w)
  {
    if n < 2 {
      FixedBitsOfZero(w - 1);
      assert n / 2 == 0 && n % 2 == n;
    } else {
      assert w >= 2;
      assert n / 2 < Pow(2, w - 1);
      PaddedIsFixed(n / 2, w - 1);
      var hi := Digits(n / 2, 2);
      assert |ZeroPad(hi, w - 1)| == w - 1;
      assert |hi| <= w - 1;
      assert ZeroPad(hi + [DigitChar(n % 2)], w) == ZeroPad(hi, w - 1) + [DigitChar(n % 2)];
    }
  }

  lemma {:induction false} DigitsValueBound(s: string)
    requires IsDigits(s, 2)
    ensures DigitsValue(s, 2) < Pow(2, |s|)
  {
    if s != [] { DigitsValueBound(s[..|s| - 1]); }
  }

  /** Re-formatting a parsed binary string of width `w` gives the string back: this is why
      `format(int(s, 2), '08b') == s` for every 8-character binary string `s`. */
  lemma FormatOfBinaryString(s: string)
    requires |s| >= 1 && IsDigits(s, 2)
    ensures FormatBin(DigitsValue(s, 2), |s|) == s
  {
    DigitsValueBound(s);
    PaddedIsFixed(DigitsValue(s, 2), |s|);
    FixedBitsOfValue(s);
  }
}
