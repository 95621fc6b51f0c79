/** UTF-8: the validator accepts exactly the encodings of scalar values. */
module Utf8 {
  import opened Bytes

  predicate Scalar(c: nat) { c <= 0x10ffff && !(0xd800 <= c <= 0xdfff) }

  function Encode(c: nat): (s: seq<byte>)
    requires Scalar(c)
    ensures 1 <= |s| <= 4
  {
    if c < 0x80 then [c]
    else if c < 0x800 then [0xc0 + c / 64, 0x80 + c % 64]
    else if c < 0x1_0000 then [0xe0 + c / 4096, 0x80 + c / 64 % 64, 0x80 + c % 64]
    else [0xf0 + c / 0x4_0000, 0x80 + c / 4096 % 64, 0x80 + c / 64 % 64, 0x80 + c % 64]
  }

  /** Every character is a scalar value no lower than `low`. */
  predicate Text(cs: seq<nat>, low: nat) {
    forall i :: 0 <= i < |cs| ==> Scalar(cs[i]) && low <= cs[i]
  }

  function EncodeAll(cs: seq<nat>): seq<byte>
    requires Text(cs, 0)
  {
    if cs == [] then [] else Encode(cs[0]) + EncodeAll(cs[1..])
  }

  // -------------------------------------------------------------- decoding

  predicate Continues(b: byte) { 128 <= b < 192 }

  /** How many continuation bytes a lead byte asks for; 4 for none that is legal. */
  function Following(b: byte): nat {
    if b < 0x80 then 0 else if 0xc2 <= b <= 0xdf then 1 else if 0xe0 <= b <= 0xef then 2 else if 0xf0 <= b <= 0xf4 then 3 else 4
  }

  function Least(k: nat): nat {
    if k == 0 then 0 else if k == 1 then 0x80 else if k == 2 then 0x800 else 0x1_0000
  }

  /** The payload bits of a lead byte. */
  function Lead(b: byte): nat {
    if b < 0x80 then b else if b <= 0xdf then b % 32 else if b <= 0xef then b % 16 else b % 8
  }

  /** Shifting in `k` continuation bytes. */
  function Shift(c: nat, p: seq<byte>, k: nat): nat
    requires k <= |p|
  {
    if k == 0 then c else Shift(c, p, k - 1) * 64 + p[k - 1] % 64
  }

  predicate AllContinue(p: seq<byte>, k: nat)
    requires k <= |p|
  {
    forall i :: 0 <= i < k ==> Continues(p[i])
  }

  datatype Char = Bad | Char(value: nat, size: nat)

  /** The first character of `p`. */
  function First(p: seq<byte>, low: nat): Char {
    if p == [] || p[0] < low then Bad
    else
      var k := Following(p[0]);
      if k == 4 || |p| - 1 < k || !AllContinue(p[1..], k) then Bad
      else
        var c := Shift(Lead(p[0]), p[1..], k);
        if c < Least(k) || !Scalar(c) then Bad else Char(c, k + 1)
  }

  /** The characters of `p`, if it is valid. */
  predicate Valid(p: seq<byte>, low: nat)
    decreases |p|
  {
    p == [] || (First(p, low).Char? && Valid(p[First(p, low).size..], low))
  }

  function Decode(p: seq<byte>, low: nat): (cs: seq<nat>)
    requires Valid(p, low)
    decreases |p|
  {
    if p == [] then [] else [First(p, low).value] + Decode(p[First(p, low).size..], low)
  }

  lemma ShiftValues(c: nat, p: seq<byte>)
    ensures Shift(c, p, 0) == c
    ensures |p| >= 1 ==> Shift(c, p, 1) == c * 64 + p[0] % 64
    ensures |p| >= 2 ==> Shift(c, p, 2) == (c * 64 + p[0] % 64) * 64 + p[1] % 64
    ensures |p| >= 3 ==> Shift(c, p, 3) == ((c * 64 + p[0] % 64) * 64 + p[1] % 64) * 64 + p[2] % 64
  {
    assert |p| >= 1 ==> Shift(c, p, 1) == Shift(c, p, 0) * 64 + p[0] % 64;
    assert |p| >= 2 ==> Shift(c, p, 2) == Shift(c, p, 1) * 64 + p[1] % 64;
  }

  /** Base-64 digits of a value and back. */
  lemma Digits(a: nat, b: nat, c: nat, d: nat)
    requires b < 64 && c < 64 && d < 64
    ensures var v := ((a * 64 + b) * 64 + c) * 64 + d;
            v / 0x4_0000 == a && v / 4096 % 64 == b && v / 64 % 64 == c && v % 64 == d
    ensures var v := (a * 64 + b) * 64 + c; v / 4096 == a && v / 64 % 64 == b && v % 64 == c
    ensures var v := a * 64 + b; v / 64 == a && v % 64 == b
  {
    var x, y := a * 64 + b, (a * 64 + b) * 64 + c;
    var v := y * 64 + d;
    assert v / 64 == y && y / 64 == x && x / 64 == a;
    assert v / 4096 == v / 64 / 64 && v / 0x4_0000 == v / 4096 / 64 && y / 4096 == y / 64 / 64;
  }

  lemma Parts(v: nat)
    ensures v == v / 64 * 64 + v % 64
    ensures v / 64 == v / 4096 * 64 + v / 64 % 64
    ensures v / 4096 == v / 0x4_0000 * 64 + v / 4096 % 64
  {
  }

  /** A continuation byte carries six bits. */
  lemma Low6(d: nat)
    requires d < 64
    ensures Continues(0x80 + d) && (0x80 + d) % 64 == d
  {
  }

  lemma High(b: byte)
    requires Continues(b)
    ensures b == 0x80 + b % 64
  {
  }

  lemma FirstOfEncoded(c: nat, rest: seq<byte>, low: nat)
    requires Scalar(c) && low <= c && low <= 128
    ensures First(Encode(c) + rest, low) == Char(c, |Encode(c)|)
  {
    hide First;
    var p := Encode(c) + rest;
    Parts(c);
    if c < 0x80 {
      FirstOne(p, c, low);
    } else if c < 0x800 {
      FirstTwo(p, c / 64, c % 64, low);
    } else if c < 0x1_0000 {
      FirstThree(p, c / 4096, c / 64 % 64, c % 64, low);
    } else {
      FirstFour(p, c / 0x4_0000, c / 4096 % 64, c / 64 % 64, c % 64, low);
    }
  }

  lemma FirstOne(p: seq<byte>, c: nat, low: nat)
    requires |p| >= 1 && p[0] == c && low <= c < 0x80
    ensures First(p, low) == Char(c, 1)
  {
    ShiftValues(c, p[1..]);
  }

  lemma FirstTwo(p: seq<byte>, a: nat, b: nat, low: nat)
    requires |p| >= 2 && b < 64 && 0x80 <= a * 64 + b < 0x800 && low <= 128 && p[0] == 0xc0 + a && p[1] == 0x80 + b
    ensures First(p, low) == Char(a * 64 + b, 2)
  {
    hide Shift, Continues;
    ShiftValues(Lead(p[0]), p[1..]);
    Low6(b);
  }

  lemma FirstThree(p: seq<byte>, a: nat, b: nat, x: nat, low: nat)
    requires |p| >= 3 && b < 64 && x < 64 && low <= 128
    requires Scalar((a * 64 + b) * 64 + x) && 0x800 <= (a * 64 + b) * 64 + x < 0x1_0000
    requires p[0] == 0xe0 + a && p[1] == 0x80 + b && p[2] == 0x80 + x
    ensures First(p, low) == Char((a * 64 + b) * 64 + x, 3)
  {
    hide Shift, Continues, Scalar;
    ShiftValues(Lead(p[0]), p[1..]);
    Low6(b);
    Low6(x);
  }

  lemma FirstFour(p: seq<byte>, a: nat, b: nat, x: nat, d: nat, low: nat)
    requires |p| >= 4 && a <= 4 && b < 64 && x < 64 && d < 64 && low <= 128
    requires Scalar(((a * 64 + b) * 64 + x) * 64 + d) && 0x1_0000 <= ((a * 64 + b) * 64 + x) * 64 + d
    requires p[0] == 0xf0 + a && p[1] == 0x80 + b && p[2] == 0x80 + x && p[3] == 0x80 + d
    ensures First(p, low) == Char(((a * 64 + b) * 64 + x) * 64 + d, 4)
  {
    hide Shift, Continues, Scalar;
    ShiftValues(Lead(p[0]), p[1..]);
    Low6(b);
    Low6(x);
    Low6(d);
  }

  lemma EncodedOfFirst(p: seq<byte>, low: nat)
    requires First(p, low).Char? && low <= 128
    ensures var ch := First(p, low);
            Scalar(ch.value) && low <= ch.value && ch.size <= |p| && p[..ch.size] == Encode(ch.value)
  {
    hide Shift, Continues, Encode;
    ShiftValues(Lead(p[0]), p[1..]);
    var ch := First(p, low);
    var c, a := ch.value, Lead(p[0]);
    if ch.size == 1 {
      EncodedOne(p, c);
    } else if ch.size == 2 {
      assert Continues(p[1..][0]);
      EncodedTwo(p, c);
    } else if ch.size == 3 {
      assert Continues(p[1..][0]) && Continues(p[1..][1]);
      EncodedThree(p, c);
    } else {
      assert Continues(p[1..][0]) && Continues(p[1..][1]) && Continues(p[1..][2]);
      EncodedFour(p, c);
    }
  }

  lemma EncodedOne(p: seq<byte>, c: nat)
    requires |p| >= 1 && p[0] == c < 0x80
    ensures p[..1] == Encode(c)
  {
    assert p[..1] == [p[0]];
  }

  lemma EncodedTwo(p: seq<byte>, c: nat)
    requires |p| >= 2 && 0xc2 <= p[0] <= 0xdf && Continues(p[1]) && c == Lead(p[0]) * 64 + p[1] % 64 && 0x80 <= c
    ensures Scalar(c) && p[..2] == Encode(c)
  {
    hide Continues;
    High(p[1]);
    Digits(p[0] % 32, p[1] % 64, 0, 0);
    assert p[..2] == [p[0], p[1]];
  }

  lemma EncodedThree(p: seq<byte>, c: nat)
    requires |p| >= 3 && 0xe0 <= p[0] <= 0xef && Continues(p[1]) && Continues(p[2]) && 0x800 <= c && Scalar(c)
    requires c == (Lead(p[0]) * 64 + p[1] % 64) * 64 + p[2] % 64
    ensures p[..3] == Encode(c)
  {
    hide Continues;
    High(p[1]);
    High(p[2]);
    Digits(p[0] % 16, p[1] % 64, p[2] % 64, 0);
    assert p[..3] == [p[0], p[1], p[2]];
  }

  lemma EncodedFour(p: seq<byte>, c: nat)
    requires |p| >= 4 && 0xf0 <= p[0] <= 0xf4 && Continues(p[1]) && Continues(p[2]) && Continues(p[3])
    requires 0x1_0000 <= c && Scalar(c)
    requires c == ((Lead(p[0]) * 64 + p[1] % 64) * 64 + p[2] % 64) * 64 + p[3] % 64
    ensures p[..4] == Encode(c)
  {
    hide Continues;
    High(p[1]);
    High(p[2]);
    High(p[3]);
    Digits(p[0] % 8, p[1] % 64, p[2] % 64, p[3] % 64);
    assert p[..4] == [p[0], p[1], p[2], p[3]];
  }

  /** Every text is accepted and decodes to itself. */
  lemma {:induction false} DecodeEncode(cs: seq<nat>, low: nat)
    requires Text(cs, low) && low <= 128
    ensures Text(cs, 0) && Valid(EncodeAll(cs), low) && Decode(EncodeAll(cs), low) == cs
  {
    hide First, Encode;
    if cs != [] {
      var rest := EncodeAll(cs[1..]);
      DecodeEncode(cs[1..], low);
      FirstOfEncoded(cs[0], rest, low);
      assert (Encode(cs[0]) + rest)[|Encode(cs[0])|..] == rest;
    }
  }

  /** Everything accepted is the encoding of exactly the text it decodes to. */
  lemma {:induction false} EncodeDecode(p: seq<byte>, low: nat)
    requires Valid(p, low) && low <= 128
    ensures Text(Decode(p, low), low) && Text(Decode(p, low), 0) && EncodeAll(Decode(p, low)) == p
    decreases |p|
  {
    hide First, Encode;
    if p != [] {
      var k := First(p, low).size;
      EncodedOfFirst(p, low);
      EncodeDecode(p[k..], low);
      assert p == p[..k] + p[k..];
      assert Decode(p, low)[1..] == Decode(p[k..], low);
    }
  }

  lemma {:induction false} AsciiValid(p: seq<byte>, low: nat)
    requires low <= 128 && forall i :: 0 <= i < |p| ==> low <= p[i] < 128
    ensures Valid(p, low)
    decreases |p|
  {
    hide First;
    if p != [] {
      FirstOne(p, p[0], low);
      AsciiValid(p[1..], low);
    }
  }

  /** The validating loop. */
  method Check(p: seq<byte>, low: nat) returns (ok: bool)
    ensures ok == Valid(p, low)
  {
    hide Shift, Continues;
    var i := 0;
    while i < |p|
      invariant i <= |p| && Valid(p, low) == Valid(p[i..], low)
    {
      ghost var rest := p[i..];
      var b := p[i];
      var c: nat := b;
      var j := i + 1;
      if b < low {
        return false;
      }
      if b >= 128 {
        var k := Following(b);
        if k == 4 || |p| - j < k {
          return false;
        }
        c := Lead(b);
        assert rest[1..] == p[j..];
        var n := 0;
        ShiftStep(Lead(b), p[j..]);
        while n < k
          invariant n <= k && c == Shift(Lead(b), p[j..], n)
          invariant AllContinue(p[j..], n)
        {
          if !Continues(p[j + n]) {
            assert !AllContinue(p[j..], k);
            return false;
          }
          assert p[j..][n] == p[j + n];
          c := c * 64 + p[j + n] % 64;
          n := n + 1;
        }
        if c < Least(k) || !Scalar(c) {
          return false;
        }
        j := j + k;
      } else {
        assert Shift(Lead(b), rest[1..], 0) == c by { ShiftStep(Lead(b), rest[1..]); }
      }
      assert rest[j - i..] == p[j..];
      i := j;
    }
    return true;
  }

  lemma ShiftStep(c: nat, p: seq<byte>)
    ensures Shift(c, p, 0) == c
    ensures forall n: nat :: n < |p| ==> Shift(c, p, n + 1) == Shift(c, p, n) * 64 + p[n] % 64
  {
  }
}
