/** The differential 8-bit codec of voice_chat/compression.py (`compression` and
    `decompression`). Samples are 8-character binary strings; the encoder sends the
    first one verbatim and then one record per later sample, a sign character and
    the clipped delta's magnitude written in binary with at least 3 digits. */
module Compression {
  import opened Wrappers
  import opened Numerals

  /** What makes the Python functions raise: `bits[0]` of an empty list (IndexError)
      or `int(s, 2)` of a string that is not a binary number (ValueError). */
  datatype CodecError = EmptyInput | NotANumber

  type Outcome<T> = Result<T, CodecError>

  function Abs(x: int): nat { if x < 0 then -x else x }
  function Min(a: int, b: int): int { if a <= b then a else b }
  function Max(a: int, b: int): int { if a >= b then a else b }

  /** The delta that is sent: `max(-8, min(8, diff))` once |diff| exceeds 8. */
  function Clip(diff: int): (r: int)
    ensures -8 <= r <= 8
    ensures -8 <= diff <= 8 ==> r == diff
    ensures diff > 8 ==> r == 8
    ensures diff < -8 ==> r == -8
  {
    if Abs(diff) > 8 then Max(-8, Min(8, diff)) else diff
  }

  /** `x & 0xFF` on a Python int: the low eight bits of its two's complement. */
  function Mask(x: int): (r: int)
    ensures 0 <= r < 256
    ensures 0 <= x < 256 ==> r == x
  {
    x % 256
  }

  /** The running value after encoding sample `v` against `prev`. */
  function Next(prev: int, v: int): int
  {
    Mask(prev + Clip(v - prev))
  }

  /** One record: "0" and the magnitude for a negative delta, "1" and the delta otherwise. */
  function Record(diff: int): string
  {
    if diff < 0 then "0" + FormatBin(Abs(diff), 3) else "1" + FormatBin(diff, 3)
  }

  function Prefixed(head: string, r: Outcome<string>): Outcome<string>
  {
    match r
    case Ok(tail) => Ok(head + tail)
    case Err(e) => Err(e)
  }

  function Cons(head: seq<string>, r: Outcome<seq<string>>): Outcome<seq<string>>
  {
    match r
    case Ok(tail) => Ok(head + tail)
    case Err(e) => Err(e)
  }

  /** The records for the samples after the first, starting from running value `prev`. */
  function EncodeFrom(prev: int, rest: seq<string>): Outcome<string>
    decreases |rest|
  {
    if rest == [] then Ok("")
    else
      match ParseInt(rest[0], 2)
      case None => Err(NotANumber)
      case Some(v) => Prefixed(Record(Clip(v - prev)), EncodeFrom(Next(prev, v), rest[1..]))
  }

  /** What `compression(bits)` returns or raises. */
  function Encode(bits: seq<string>): (r: Outcome<string>)
    ensures bits == [] ==> r == Err(EmptyInput)
    ensures r.Ok? ==> |bits| >= 1 && bits[0] <= r.value
  {
    if bits == [] then Err(EmptyInput)
    else
      match ParseInt(bits[0], 2)
      case None => Err(NotANumber)
      case Some(first) => Prefixed(bits[0], EncodeFrom(first, bits[1..]))
  }

  /** The samples decoded from the records in `rest`, starting from running value `prev`:
      a record is read every 4 characters whatever its real length, and decoding
      stops early only when nothing follows the sign character. */
  function DecodeFrom(prev: int, rest: string): Outcome<seq<string>>
    decreases |rest|
  {
    if rest == [] then Ok([])
    else
      var stop := Min(4, |rest|);
      var mag := rest[1..stop];
      if mag == [] then Ok([])
      else
        match ParseInt(mag, 2)
        case None => Err(NotANumber)
        case Some(m) =>
          var next := if rest[0] == '0' then prev - m else prev + m;
          Cons([FormatBin(next, 8)], DecodeFrom(next, rest[stop..]))
  }

  /** What `decompression(encoded)` returns or raises. */
  function Decode(encoded: string): (r: Outcome<seq<string>>)
    ensures r.Ok? ==> |r.value| >= 1 && r.value[0] == encoded[..Min(8, |encoded|)]
  {
    var seed := encoded[..Min(8, |encoded|)];
    match ParseInt(seed, 2)
    case None => Err(NotANumber)
    case Some(first) => Cons([seed], DecodeFrom(first, encoded[Min(8, |encoded|)..]))
  }

  // ---------------------------------------------------------------------------
  // The two functions of the source, as the loops they are

  method Compression(bits: seq<string>) returns (encoded: Outcome<string>)
    ensures encoded == Encode(bits)
  {
    if |bits| == 0 {
      return Err(EmptyInput);
    }
    var first := ParseInt(bits[0], 2);
    if first.None? {
      return Err(NotANumber);
    }
    var acc := bits[0];
    var prev := first.value;
    var rest := bits[1..];
    while rest != []
      invariant Encode(bits) == Prefixed(acc, EncodeFrom(prev, rest))
      decreases |rest|
    {
      var b := ParseInt(rest[0], 2);
      if b.None? {
        return Err(NotANumber);
      }
      var diff := b.value - prev;
      if Abs(diff) > 8 {
        diff := Max(-8, Min(8, diff));
      }
      var rec := EmitRecord(diff);
      EncodeAdvance(acc, prev, rest, diff, rec);
      acc := acc + rec;
      prev := (prev + diff) % 256;
      rest := rest[1..];
    }
    assert acc + "" == acc;
    return Ok(acc);
  }

  /** The sign-and-magnitude record the encoder appends for a clipped delta. */
  method EmitRecord(diff: int) returns (rec: string)
    ensures rec == Record(diff)
    ensures -8 <= diff <= 8 ==> |rec| == (if Abs(diff) == 8 then 5 else 4)
    ensures -8 <= diff <= 8 ==> rec[0] == (if diff < 0 then '0' else '1')
    ensures -8 <= diff <= 8 ==> ParseInt(rec[1..], 2) == Some(Abs(diff))
  {
    if -8 <= diff <= 8 {
      RecordShape(diff);
    }
    if diff < 0 {
      rec := "0" + FormatBin(Abs(diff), 3);
    } else {
      rec := "1" + FormatBin(diff, 3);
    }
  }

  /** One turn of the encoder's loop moves one record from the pending samples to the
      output. */
  lemma EncodeAdvance(acc: string, prev: int, rest: seq<string>, diff: int, rec: string)
    requires rest != [] && ParseInt(rest[0], 2).Some?
    requires diff == Clip(ParseInt(rest[0], 2).value - prev) && rec == Record(diff)
    ensures Prefixed(acc, EncodeFrom(prev, rest)) == Prefixed(acc + rec, EncodeFrom((prev + diff) % 256, rest[1..]))
  {
    EncodeUnfold(prev, rest, diff, rec);
    PrefixedAssoc(acc, rec, EncodeFrom((prev + diff) % 256, rest[1..]));
  }

  lemma EncodeUnfold(prev: int, rest: seq<string>, diff: int, rec: string)
    requires rest != [] && ParseInt(rest[0], 2).Some?
    requires diff == Clip(ParseInt(rest[0], 2).value - prev) && rec == Record(diff)
    ensures EncodeFrom(prev, rest) == Prefixed(rec, EncodeFrom((prev + diff) % 256, rest[1..]))
  {
    assert Next(prev, ParseInt(rest[0], 2).value) == (prev + diff) % 256;
  }

  lemma PrefixedAssoc(a: string, b: string, r: Outcome<string>)
    ensures Prefixed(a, Prefixed(b, r)) == Prefixed(a + b, r)
  {
    match r
    case Ok(t) =>
      assert a + (b + t) == (a + b) + t;
    case Err(_) =>
  }


  method Decompression(encoded: string) returns (res: Outcome<seq<string>>)
    ensures res == Decode(encoded)
  {
    var seed := encoded[..Min(8, |encoded|)];
    var first := ParseInt(seed, 2);
    if first.None? {
      return Err(NotANumber);
    }
    var out := [seed];
    var prev := first.value;
    var rest := encoded[Min(8, |encoded|)..];
    ghost var target := Cons(out, DecodeFrom(prev, rest));
    assert rest[Min(0, |rest|)..] == rest;
    var i := 0;
    while i < |rest|
      invariant 0 <= i
      invariant target == Cons(out, DecodeFrom(prev, rest[Min(i, |rest|)..]))
      decreases |rest| - i
    {
      var sign := rest[i];
      var mag := rest[i + 1..Min(i + 4, |rest|)];
      DecodeStop(out, prev, rest, i);
      if mag == [] {
        break;
      }
      var m := ParseInt(mag, 2);
      if m.None? {
        return Err(NotANumber);
      }
      ghost var (out0, prev0) := (out, prev);
      var sample;
      sample, prev := ApplyRecord(prev, sign, m.value);
      out := out + [sample];
      DecodeAdvance(out0, prev0, rest, i, out, prev);
      i := i + 4;
    }
    assert out + [] == out;
    return Ok(out);
  }

  /** The sample a record decodes to: a '0' sign subtracts the magnitude, any other adds it,
      and the result is written with at least 8 binary digits. */
  method ApplyRecord(prev: int, sign: char, m: int) returns (sample: string, next: int)
    ensures next == (if sign == '0' then prev - m else prev + m)
    ensures sample == FormatBin(next, 8)
    ensures |sample| >= 8 && ParseInt(sample, 2) == Some(next)
  {
    if sign == '0' {
      sample := FormatBin(prev - m, 8);
      next := prev - m;
    } else {
      sample := FormatBin(prev + m, 8);
      next := prev + m;
    }
  }

  /** The decoder's loop at offset `i` of the records stops, or fails, where `DecodeFrom` does. */
  lemma DecodeStop(out: seq<string>, prev: int, rest: string, i: nat)
    requires i < |rest|
    ensures var mag := rest[i + 1..Min(i + 4, |rest|)];
      && (mag == [] ==> DecodeFrom(prev, rest[i..]) == Ok([]))
      && (mag != [] && ParseInt(mag, 2).None? ==> Cons(out, DecodeFrom(prev, rest[i..])) == Err(NotANumber))
  {
    var tail := rest[i..];
    assert tail[1..Min(4, |tail|)] == rest[i + 1..Min(i + 4, |rest|)];
  }

  /** One turn of the decoder's loop moves the sample of the record at offset `i` to the output. */
  lemma DecodeAdvance(out: seq<string>, prev: int, rest: string, i: nat, out': seq<string>, prev': int)
    requires i < |rest|
    requires var mag := rest[i + 1..Min(i + 4, |rest|)];
      && mag != [] && ParseInt(mag, 2).Some?
      && prev' == (if rest[i] == '0' then prev - ParseInt(mag, 2).value else prev + ParseInt(mag, 2).value)
    requires out' == out + [FormatBin(prev', 8)]
    ensures Cons(out, DecodeFrom(prev, rest[i..])) == Cons(out', DecodeFrom(prev', rest[Min(i + 4, |rest|)..]))
  {
    var tail := rest[i..];
    assert tail[1..Min(4, |tail|)] == rest[i + 1..Min(i + 4, |rest|)];
    assert tail[Min(4, |tail|)..] == rest[Min(i + 4, |rest|)..];
    assert tail[0] == rest[i];
    ConsAssoc(out, [FormatBin(prev', 8)], DecodeFrom(prev', rest[Min(i + 4, |rest|)..]));
  }

  lemma ConsAssoc(a: seq<string>, b: seq<string>, r: Outcome<seq<string>>)
    ensures Cons(a, Cons(b, r)) == Cons(a + b, r)
  {
    match r
    case Ok(t) => assert a + (b + t) == (a + b) + t;
    case Err(_) =>
  }

  // ---------------------------------------------------------------------------
  // What the codec promises, and where it breaks

  /** For 8-bit samples the running value stays in 0..255, moves towards the sample by at
      most 8 without overshooting, and reaches it exactly when the delta is at most 8,
      so the `& 0xFF` never changes anything. */
  lemma RunningValue(prev: int, v: int)
    requires 0 <= prev < 256 && 0 <= v < 256
    ensures Next(prev, v) == prev + Clip(v - prev)
    ensures 0 <= Next(prev, v) < 256
    ensures Min(prev, v) <= Next(prev, v) <= Max(prev, v)
    ensures Abs(Next(prev, v) - prev) <= 8
    ensures Next(prev, v) == v <==> Abs(v - prev) <= 8
  {
  }

  /** A record is the sign character followed by the magnitude, which reads back exactly;
      it is 4 characters long except for magnitude 8, written as the four digits "1000". */
  lemma RecordShape(diff: int)
    requires -8 <= diff <= 8
    ensures |Record(diff)| == if Abs(diff) == 8 then 5 else 4
    ensures Record(diff)[0] == if diff < 0 then '0' else '1'
    ensures ParseInt(Record(diff)[1..], 2) == Some(Abs(diff))
  {
    var m := Abs(diff);
    MagnitudeShape(m);
    var sign := if diff < 0 then "0" else "1";
    assert Record(diff) == sign + FormatBin(m, 3);
    assert (sign + FormatBin(m, 3))[1..] == FormatBin(m, 3);
  }

  /** The magnitude field: three binary digits, or four for the clipped value 8. */
  lemma MagnitudeShape(m: nat)
    requires m <= 8
    ensures |FormatBin(m, 3)| == if m == 8 then 4 else 3
    ensures ParseInt(FormatBin(m, 3), 2) == Some(m)
  {
    ParsePadded(m, 2, 3);
    if m < 8 {
      assert Pow(2, 3) == 8;
      PaddedIsFixed(m, 3);
    } else {
      assert Digits(8, 2) == "1000";
    }
  }

  /** How many records of `EncodeFrom(prev, rest)` carry magnitude 8 and so take 5 characters. */
  function LongRecords(prev: int, rest: seq<string>): nat
    decreases |rest|
  {
    if rest == [] then 0
    else
      match ParseInt(rest[0], 2)
      case None => 0
      case Some(v) => (if Abs(Clip(v - prev)) == 8 then 1 else 0) + LongRecords(Next(prev, v), rest[1..])
  }

  /** The records take 4 characters per sample plus one per magnitude-8 record, so the
      output is `8 + 4(n-1)` characters long exactly when no record has magnitude 8. */
  lemma {:induction false} EncodedLength(prev: int, rest: seq<string>)
    requires EncodeFrom(prev, rest).Ok?
    ensures |EncodeFrom(prev, rest).value| == 4 * |rest| + LongRecords(prev, rest)
    decreases |rest|
  {
    if rest != [] {
      var v := ParseInt(rest[0], 2).value;
      RecordShape(Clip(v - prev));
      EncodedLength(Next(prev, v), rest[1..]);
    }
  }

  predicate IsByte(s: string)
  {
    |s| == 8 && IsDigits(s, 2)
  }

  function ByteValue(s: string): nat
    requires IsByte(s)
  {
    DigitsValue(s, 2)
  }

  /** Every sample is an 8-character binary string and consecutive samples differ by at most 7. */
  predicate SmallSteps(bits: seq<string>)
  {
    && (forall i :: 0 <= i < |bits| ==> IsByte(bits[i]))
    && (forall i :: 1 <= i < |bits| ==> Abs(ByteValue(bits[i]) - ByteValue(bits[i - 1])) <= 7)
  }

  /** A record of magnitude at most 7 decodes to the sample it was made from. */
  lemma DecodeRecord(prev: int, next: int, tail: string)
    requires -7 <= next - prev <= 7
    ensures DecodeFrom(prev, Record(next - prev) + tail) == Cons([FormatBin(next, 8)], DecodeFrom(next, tail))
  {
    var diff := next - prev;
    RecordShape(diff);
    var rec := Record(diff);
    var rest := rec + tail;
    assert |rec| == 4;
    assert rest[1..4] == rec[1..] && rest[4..] == tail && rest[0] == rec[0];
    DecodeFullRecord(prev, rest, Abs(diff), next);
  }


  lemma DecodeFullRecord(prev: int, rest: string, m: int, next: int)
    requires |rest| >= 4 && ParseInt(rest[1..4], 2) == Some(m)
    requires next == if rest[0] == '0' then prev - m else prev + m
    ensures DecodeFrom(prev, rest) == Cons([FormatBin(next, 8)], DecodeFrom(next, rest[4..]))
  {
    assert Min(4, |rest|) == 4;
  }

  lemma {:induction false} RoundTripFrom(prev: int, rest: seq<string>)
    requires 0 <= prev < 256 && SmallSteps(rest)
    requires rest != [] ==> Abs(ByteValue(rest[0]) - prev) <= 7
    ensures EncodeFrom(prev, rest).Ok?
    ensures |EncodeFrom(prev, rest).value| == 4 * |rest|
    ensures DecodeFrom(prev, EncodeFrom(prev, rest).value) == Ok(rest)
    decreases |rest|
  {
    if rest != [] {
      var v := ByteValue(rest[0]) as int;
      ByteParse(rest[0]);
      SmallStepsTail(rest);
      RoundTripFrom(v, rest[1..]);
      RoundTripStep(prev, rest, EncodeFrom(v, rest[1..]).value);
    }
  }

  /** One record of the round trip: a sample within 7 of `prev` encodes to a four-character
      record that decodes back to it, in front of whatever the rest encodes to. */
  lemma RoundTripStep(prev: int, rest: seq<string>, tail: string)
    requires rest != [] && IsByte(rest[0]) && 0 <= prev < 256
    requires Abs(ByteValue(rest[0]) - prev) <= 7
    requires EncodeFrom(ByteValue(rest[0]) as int, rest[1..]) == Ok(tail)
    requires DecodeFrom(ByteValue(rest[0]) as int, tail) == Ok(rest[1..])
    ensures EncodeFrom(prev, rest) == Ok(Record(ByteValue(rest[0]) - prev) + tail)
    ensures |Record(ByteValue(rest[0]) - prev)| == 4
    ensures DecodeFrom(prev, Record(ByteValue(rest[0]) - prev) + tail) == Ok(rest)
  {
    var v := ByteValue(rest[0]) as int;
    EncodeHead(prev, rest, tail);
    RecordShape(v - prev);
    DecodeHead(prev, rest, tail);
  }

  lemma EncodeHead(prev: int, rest: seq<string>, tail: string)
    requires rest != [] && IsByte(rest[0]) && 0 <= prev < 256
    requires Abs(ByteValue(rest[0]) - prev) <= 7
    requires EncodeFrom(ByteValue(rest[0]) as int, rest[1..]) == Ok(tail)
    ensures EncodeFrom(prev, rest) == Ok(Record(ByteValue(rest[0]) - prev) + tail)
  {
    var v := ByteValue(rest[0]) as int;
    ByteParse(rest[0]);
    RunningValue(prev, v);
    assert Clip(v - prev) == v - prev && Next(prev, v) == v;
  }

  lemma DecodeHead(prev: int, rest: seq<string>, tail: string)
    requires rest != [] && IsByte(rest[0]) && 0 <= prev < 256
    requires Abs(ByteValue(rest[0]) - prev) <= 7
    requires DecodeFrom(ByteValue(rest[0]) as int, tail) == Ok(rest[1..])
    ensures DecodeFrom(prev, Record(ByteValue(rest[0]) - prev) + tail) == Ok(rest)
  {
    var v := ByteValue(rest[0]) as int;
    DecodeRecord(prev, v, tail);
    FormatOfBinaryString(rest[0]);
    assert FormatBin(v, 8) == rest[0];
    ConsHead(rest);
  }

  lemma ConsHead(s: seq<string>)
    requires s != []
    ensures Cons([s[0]], Ok(s[1..])) == Ok(s)
  {
    assert [s[0]] + s[1..] == s;
  }


  /** Dropping the first sample keeps the steps small. */
  lemma SmallStepsTail(bits: seq<string>)
    requires bits != [] && SmallSteps(bits)
    ensures SmallSteps(bits[1..])
    ensures |bits| > 1 ==> Abs(ByteValue(bits[1]) - ByteValue(bits[0])) <= 7 && bits[1..][0] == bits[1]
  {
    forall i | 1 <= i < |bits[1..]|
      ensures Abs(ByteValue(bits[1..][i]) - ByteValue(bits[1..][i - 1])) <= 7
    {
      assert bits[1..][i] == bits[i + 1] && bits[1..][i - 1] == bits[i];
    }
  }

  /** An 8-bit sample parses to its value, which is below 256. */
  lemma ByteParse(s: string)
    requires IsByte(s)
    ensures ParseInt(s, 2) == Some(ByteValue(s) as int)
    ensures ByteValue(s) < 256
  {
    DigitsValueBound(s);
    assert Pow(2, 8) == 256;
  }


  /** `decompression(compression(bits)) == bits` for every non-empty list of 8-bit binary
      strings whose consecutive values differ by at most 7, and the output then has
      `8 + 4(n-1)` characters. */
  lemma RoundTrip(bits: seq<string>)
    requires |bits| >= 1 && SmallSteps(bits)
    ensures Encode(bits).Ok?
    ensures |Encode(bits).value| == 8 + 4 * (|bits| - 1)
    ensures Decode(Encode(bits).value) == Ok(bits)
  {
    var first := ByteValue(bits[0]);
    ByteParse(bits[0]);
    SmallStepsTail(bits);
    RoundTripFrom(first, bits[1..]);
    var e := EncodeFrom(first, bits[1..]).value;
    var encoded := bits[0] + e;
    assert encoded[..8] == bits[0];
    assert encoded[8..] == e;
    assert [bits[0]] + bits[1..] == bits;
  }


  lemma ParseZeroByte()
    ensures ParseInt("00000000", 2) == Some(0)
  {
    LeadingZerosValue(8, "", 2);
    assert Zeros(8) + "" == "00000000";
  }

  lemma ParseFullByte()
    ensures ParseInt("11111111", 2) == Some(255)
  {
    assert Digits(255, 2) == "11111111";
    ParsePadded(255, 2, 8);
  }

  lemma RecordOfEight()
    ensures Record(8) == "11000"
  {
    assert Digits(8, 2) == "1000";
  }

  lemma EncodePair(a: string, b: string)
    requires ParseInt(a, 2).Some? && ParseInt(b, 2).Some?
    ensures Encode([a, b]) == Ok(a + Record(Clip(ParseInt(b, 2).value - ParseInt(a, 2).value)))
  {
    var bits := [a, b];
    var va, vb := ParseInt(a, 2).value, ParseInt(b, 2).value;
    assert bits[1..] == [b];
    assert [b][1..] == [];
    var rec := Record(Clip(vb - va));
    assert EncodeFrom(Next(va, vb), []) == Ok("");
    assert rec + "" == rec;
    assert EncodeFrom(va, [b]) == Prefixed(rec, EncodeFrom(Next(va, vb), []));
    assert Encode(bits) == Prefixed(a, EncodeFrom(va, [b]));
  }

  /** A jump from 0 to 255 is clipped to +8, whose record "11000" is five characters long. */
  lemma ClippedJumpEncoding()
    ensures Encode(["00000000", "11111111"]) == Ok("0000000011000")
  {
    ParseZeroByte();
    ParseFullByte();
    RecordOfEight();
    EncodePair("00000000", "11111111");
    assert Clip(255 - 0) == 8;
    assert "00000000" + "11000" == "0000000011000";
  }

  /** Decoding reads the 8-character seed and then the records after it. */
  lemma DecodeSeed(seed: string, rest: string)
    requires |seed| == 8 && ParseInt(seed, 2).Some?
    ensures Decode(seed + rest) == Cons([seed], DecodeFrom(ParseInt(seed, 2).value, rest))
  {
    var encoded := seed + rest;
    assert encoded[..Min(8, |encoded|)] == seed;
    assert encoded[Min(8, |encoded|)..] == rest;
  }

  lemma FormatFour()
    ensures FormatBin(4, 8) == "00000100"
  {
    assert Digits(4, 2) == "100";
  }

  /** The records after the seed of the clipped jump: "1100" reads as +4, the lone '0' is dropped. */
  lemma ClippedJumpRecords()
    ensures DecodeFrom(0, "11000") == Ok(["00000100"])
  {
    var rest := "11000";
    assert rest[1..4] == Digits(4, 2) by { assert Digits(4, 2) == "100"; }
    ParsePadded(4, 2, 0);
    assert rest[0] == '1' && rest[4..] == "0";
    DecodeFullRecord(0, rest, 4, 4);
    TailDecoding(4, "0");
    FormatFour();
    assert ["00000100"] + [] == ["00000100"];
  }

  /** The decoder reads the first four characters of "11000" as +4 and stops at the lone '0'
      left over: the clipped jump comes back as 4, not 8. */
  lemma ClippedJumpDecoding()
    ensures Decode("0000000011000") == Ok(["00000000", "00000100"])
  {
    ParseZeroByte();
    assert "00000000" + "11000" == "0000000011000";
    DecodeSeed("00000000", "11000");
    ClippedJumpRecords();
    assert Decode("0000000011000") == Cons(["00000000"], Ok(["00000100"]));
    assert ["00000000"] + ["00000100"] == ["00000000", "00000100"];
  }

  lemma Format256()
    ensures FormatBin(256, 8) == "100000000"
  {
    assert Digits(256, 2) == "100000000";
  }

  /** The record "1001" after a running value of 255 reads as +1. */
  lemma PlusOneRecord()
    ensures DecodeFrom(255, "1001") == Ok(["100000000"])
  {
    var rest := "1001";
    assert rest[1..4] == Zeros(2) + Digits(1, 2);
    ParsePadded(1, 2, 3);
    assert rest[0] == '1' && rest[4..] == [];
    DecodeFullRecord(255, rest, 1, 256);
    Format256();
    assert ["100000000"] + [] == ["100000000"];
  }

  /** The decoder does not wrap: adding 1 to 255 gives the 9-digit string of 256. */
  lemma DecoderDoesNotWrap()
    ensures Decode("111111111001") == Ok(["11111111", "100000000"])
  {
    ParseFullByte();
    assert "11111111" + "1001" == "111111111001";
    DecodeSeed("11111111", "1001");
    PlusOneRecord();
    assert Decode("111111111001") == Cons(["11111111"], Ok(["100000000"]));
    assert ["11111111"] + ["100000000"] == ["11111111", "100000000"];
  }

  /** The decoder reads a 2- or 3-character tail as a short magnitude and ignores a lone sign character. */
  lemma TailDecoding(prev: int, rest: string)
    requires 1 <= |rest| <= 4
    ensures |rest| == 1 ==> DecodeFrom(prev, rest) == Ok([])
    ensures |rest| >= 2 && IsDigits(rest[1..], 2) ==>
      var m := DigitsValue(rest[1..], 2);
      DecodeFrom(prev, rest) == Ok([FormatBin(if rest[0] == '0' then prev - m else prev + m, 8)])
  {
    if |rest| >= 2 && IsDigits(rest[1..], 2) {
      var m := DigitsValue(rest[1..], 2);
      assert rest[1..Min(4, |rest|)] == rest[1..];
      assert rest[Min(4, |rest|)..] == [];
      assert ParseInt(rest[1..], 2) == Some(m as int);
      var next := if rest[0] == '0' then prev - m else prev + m;
      assert DecodeFrom(next, []) == Ok([]);
      assert [FormatBin(next, 8)] + [] == [FormatBin(next, 8)];
    }
  }
}
