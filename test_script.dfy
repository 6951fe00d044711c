/** The copy of the codec in voice_chat/test.py. Its `compression` also keeps a local
    `loss` flag, set whenever a delta is clipped, and its script compares the decoded
    samples with the input. The flag is never returned, so the encoded string is the
    one of voice_chat/compression.py; the model hands the flag back so that its
    meaning can be stated. Its `decompression` is the same text as the other copy's and
    is `Compression.Decompression`. */
module ScriptCompression {
  import opened Wrappers
  import opened Numerals
  import opened Compression

  /** The value of a sample, where it is a binary number. */
  function Sample(s: string): int
  {
    match ParseInt(s, 2)
    case Some(v) => v
    case None => 0
  }

  /** Whether the encoder, having `prev` as its running value, clips a delta somewhere
      in `rest`. */
  function LossFrom(prev: int, rest: seq<string>): bool
    decreases |rest|
  {
    if rest == [] then false
    else
      match ParseInt(rest[0], 2)
      case None => false
      case Some(v) => Abs(v - prev) > 8 || LossFrom(Next(prev, v), rest[1..])
  }

  /** The final value of `loss` in `compression(bits)`. */
  function Lossy(bits: seq<string>): bool
  {
    |bits| >= 1 && LossFrom(Sample(bits[0]), bits[1..])
  }

  /** Sample `b` is more than 8 away from sample `a`. */
  predicate Jump(a: string, b: string)
  {
    Abs(Sample(b) - Sample(a)) > 8
  }

  /** Two consecutive samples of the input differ by more than 8. */
  predicate BigJump(bits: seq<string>)
  {
    exists i :: 1 <= i < |bits| && Jump(bits[i - 1], bits[i])
  }

  method ScriptEncoder(bits: seq<string>) returns (encoded: Outcome<string>, loss: bool)
    ensures encoded == Encode(bits)
    ensures encoded.Ok? ==> (loss <==> Lossy(bits))
  {
    if |bits| == 0 {
      return Err(EmptyInput), false;
    }
    var first := ParseInt(bits[0], 2);
    if first.None? {
      return Err(NotANumber), false;
    }
    var acc := bits[0];
    var prev := first.value;
    loss := false;
    var rest := bits[1..];
    while rest != []
      invariant Encode(bits) == Prefixed(acc, EncodeFrom(prev, rest))
      invariant Lossy(bits) == (loss || LossFrom(prev, rest))
      decreases |rest|
    {
      var b := ParseInt(rest[0], 2);
      if b.None? {
        return Err(NotANumber), loss;
      }
      var diff, clipped := ClipDelta(b.value - prev);
      var rec := EmitRecord(diff);
      EncodeAdvance(acc, prev, rest, diff, rec);
      LossAdvance(prev, rest, diff, loss, loss || clipped);
      loss := loss || clipped;
      acc := acc + rec;
      prev := (prev + diff) % 256;
      rest := rest[1..];
    }
    assert acc + "" == acc;
    return Ok(acc), loss;
  }

  /** The clipping step of the loop: the delta kept and whether it was cut. */
  method ClipDelta(delta: int) returns (diff: int, clipped: bool)
    ensures diff == Clip(delta) && clipped == (Abs(delta) > 8)
  {
    diff := delta;
    clipped := false;
    if Abs(diff) > 8 {
      clipped := true;
      diff := Max(-8, Min(8, diff));
    }
  }

  /** One turn of the loop moves one delta from the pending samples to `loss`. */
  lemma LossAdvance(prev: int, rest: seq<string>, diff: int, loss: bool, loss': bool)
    requires rest != [] && ParseInt(rest[0], 2).Some?
    requires var v := ParseInt(rest[0], 2).value;
      diff == Clip(v - prev) && loss' == (loss || Abs(v - prev) > 8)
    ensures (loss || LossFrom(prev, rest)) == (loss' || LossFrom((prev + diff) % 256, rest[1..]))
  {
  }



  /** A list has a jump exactly when its first step is one or its tail has one. */
  lemma BigJumpCons(a: string, s: seq<string>)
    requires s != []
    ensures BigJump([a] + s) <==> Jump(a, s[0]) || BigJump(s)
  {
    var t := [a] + s;
    if BigJump(t) {
      var i :| 1 <= i < |t| && Jump(t[i - 1], t[i]);
      if i > 1 {
        assert 1 <= i - 1 < |s| && Jump(s[i - 2], s[i - 1]);
      }
    }
    if BigJump(s) {
      var i :| 1 <= i < |s| && Jump(s[i - 1], s[i]);
      assert 1 <= i + 1 < |t| && Jump(t[i], t[i + 1]);
    }
    if Jump(a, s[0]) {
      assert 1 <= 1 < |t| && Jump(t[0], t[1]);
    }
  }

  /** Along 8-bit samples, the encoder, starting from sample `prev`, clips a delta exactly
      when two consecutive samples differ by more than 8. */
  lemma {:induction false} LossFromBytes(prev: string, rest: seq<string>)
    requires IsByte(prev) && forall k :: 0 <= k < |rest| ==> IsByte(rest[k])
    ensures LossFrom(ByteValue(prev) as int, rest) <==> BigJump([prev] + rest)
    decreases |rest|
  {
    ByteParse(prev);
    if rest != [] {
      ByteParse(rest[0]);
      var p, v := ByteValue(prev) as int, ByteValue(rest[0]) as int;
      BigJumpCons(prev, rest);
      assert Jump(prev, rest[0]) == (Abs(v - p) > 8);
      if Abs(v - p) <= 8 {
        RunningValue(p, v);
        LossFromBytes(rest[0], rest[1..]);
        assert [rest[0]] + rest[1..] == rest;
      }
    }
  }

  /** `loss` ends True exactly when the input has a jump of more than 8 between consecutive samples. */
  lemma LossFlagMeaning(bits: seq<string>)
    requires |bits| >= 1 && forall i :: 0 <= i < |bits| ==> IsByte(bits[i])
    ensures Lossy(bits) <==> BigJump(bits)
  {
    ByteParse(bits[0]);
    LossFromBytes(bits[0], bits[1..]);
    assert [bits[0]] + bits[1..] == bits;
  }

  /** The script's check `decomp == bit_array` holds, and the flag stays down, on every
      non-empty list of 8-bit samples whose consecutive values differ by at most 7. */
  lemma ScriptCheckHolds(bits: seq<string>)
    requires |bits| >= 1 && SmallSteps(bits)
    ensures Encode(bits).Ok? && !Lossy(bits)
    ensures Decode(Encode(bits).value) == Ok(bits)
  {
    RoundTrip(bits);
    LossFlagMeaning(bits);
  }

  lemma ParseEight()
    ensures ParseInt("00001000", 2) == Some(8)
  {
    assert Digits(8, 2) == "1000";
    ParsePadded(8, 2, 8);
    assert Zeros(4) + "1000" == "00001000";
  }

  /** A jump of exactly 8 is not clipped, so the flag stays down, yet its record "11000" is
      five characters long and the samples do not come back. */
  lemma LossFlagMissesEight()
    ensures !Lossy(["00000000", "00001000"])
    ensures Encode(["00000000", "00001000"]) == Ok("0000000011000")
    ensures Decode("0000000011000") != Ok(["00000000", "00001000"])
  {
    ParseZeroByte();
    ParseEight();
    RecordOfEight();
    EncodePair("00000000", "00001000");
    assert Clip(8 - 0) == 8;
    assert "00000000" + "11000" == "0000000011000";
    var bits := ["00000000", "00001000"];
    assert Sample(bits[0]) == 0 && Sample(bits[1]) == 8;
    assert bits[1..] == ["00001000"] && bits[1..][1..] == [];
    assert !LossFrom(0, bits[1..]);
    ClippedJumpDecoding();
    assert "00000100"[4] != "00001000"[4];
    assert ["00000000", "00000100"] != ["00000000", "00001000"] by {
      assert ["00000000", "00000100"][1] == "00000100";
    }
  }
}
