/** Version numbers as text: the parser accepts exactly the canonical dotted triples. */
module VersionText {
  import opened Bytes
  import Update

  const U32_MAX: nat := 0xffff_ffff
  const DOT: byte := 46

  predicate Digit(c: byte) { 48 <= c <= 57 }
  predicate Digits(s: seq<byte>) { forall i :: 0 <= i < |s| ==> Digit(s[i]) }

  /** The number a digit string spells. */
  function Value(s: seq<byte>): nat
    requires Digits(s)
  {
    if s == [] then 0 else Value(s[..|s| - 1]) * 10 + (s[|s| - 1] - 48)
  }

  /** A number without leading zeros. */
  function Spell(n: nat): (s: seq<byte>)
    ensures s != [] && Digits(s) && (|s| > 1 ==> s[0] != 48)
  {
    if n < 10 then [48 + n] else Spell(n / 10) + [48 + n % 10]
  }

  lemma {:induction false} SpellValue(n: nat)
    ensures Value(Spell(n)) == n
  {
    if n >= 10 {
      SpellValue(n / 10);
      assert Spell(n)[..|Spell(n)| - 1] == Spell(n / 10);
    }
  }

  lemma {:induction false} ValueSpell(s: seq<byte>)
    requires s != [] && Digits(s) && (|s| > 1 ==> s[0] != 48)
    ensures Spell(Value(s)) == s && (s[0] != 48 ==> Value(s) > 0)
  {
    var f := s[..|s| - 1];
    assert s == f + [s[|s| - 1]];
    if |s| > 1 {
      ValueSpell(f);
      assert f[0] == s[0];
    }
  }

  lemma {:induction false} ValueGrows(s: seq<byte>, i: nat)
    requires Digits(s) && i <= |s|
    ensures Value(s[..i]) <= Value(s)
    decreases |s| - i
  {
    if i == |s| {
      assert s[..i] == s;
    } else {
      ValueGrows(s, i + 1);
      assert s[..i + 1][..i] == s[..i];
    }
  }

  /** Where the digits starting at `i` end. */
  function Run(text: seq<byte>, i: nat): (j: nat)
    requires i <= |text|
    ensures i <= j <= |text| && Digits(text[i..j]) && (j < |text| ==> !Digit(text[j]))
    decreases |text| - i
  {
    if i == |text| || !Digit(text[i]) then i
    else
      var j := Run(text, i + 1);
      assert text[i..j] == [text[i]] + text[i + 1..j];
      j
  }

  /** The number at `i`: digits without a superfluous zero that fit 32 bits. */
  predicate PartAt(text: seq<byte>, i: nat)
    requires i <= |text|
  {
    var j := Run(text, i);
    j > i && (j - i > 1 ==> text[i] != 48) && Value(text[i..j]) <= U32_MAX
  }

  datatype Part = NoPart | Part(value: nat, end: nat)

  method ReadPart(text: seq<byte>, i: nat) returns (r: Part)
    requires i <= |text|
    ensures r == if PartAt(text, i) then Part(Value(text[i..Run(text, i)]), Run(text, i)) else NoPart
  {
    hide Run, Value, Digits;
    RunStep(text, i);
    if i == |text| || !Digit(text[i]) {
      return NoPart;
    }
    ghost var end := Run(text, i);
    var value, j := 0, i;
    NoDigits(text, i);
    while j < |text| && Digit(text[j])
      invariant i <= j <= end && Run(text, j) == end && Digits(text[i..j]) && value == Value(text[i..j]) && value <= U32_MAX
      decreases |text| - j
    {
      var digit := text[j] - 48;
      RunStep(text, j);
      ValueStep(text, i, j);
      if value > (U32_MAX - digit) / 10 {
        ValuePrefix(text, i, j + 1, end);
        return NoPart;
      }
      value := value * 10 + digit;
      j := j + 1;
    }
    RunStep(text, j);
    if j - i > 1 && text[i] == 48 {
      return NoPart;
    }
    return Part(value, j);
  }

  lemma RunStep(text: seq<byte>, i: nat)
    requires i <= |text|
    ensures i < |text| && Digit(text[i]) ==> Run(text, i) == Run(text, i + 1)
    ensures i == |text| || !Digit(text[i]) ==> Run(text, i) == i
  {
  }

  lemma NoDigits(text: seq<byte>, i: nat)
    requires i <= |text|
    ensures Digits(text[i..i]) && Value(text[i..i]) == 0
  {
  }

  lemma ValueStep(text: seq<byte>, i: nat, j: nat)
    requires i <= j < |text| && Digits(text[i..j]) && Digit(text[j])
    ensures Digits(text[i..j + 1]) && Value(text[i..j + 1]) == Value(text[i..j]) * 10 + (text[j] - 48)
  {
    assert text[i..j + 1] == text[i..j] + [text[j]];
    assert text[i..j + 1][..j - i] == text[i..j];
  }

  lemma ValuePrefix(text: seq<byte>, i: nat, j: nat, k: nat)
    requires i <= j <= k <= |text| && Digits(text[i..k]) && Digits(text[i..j])
    ensures Value(text[i..j]) <= Value(text[i..k])
  {
    assert text[i..k][..j - i] == text[i..j];
    ValueGrows(text[i..k], j - i);
  }

  // ------------------------------------------------------------- versions

  predicate Fits(v: Update.Version) { v.major <= U32_MAX && v.minor <= U32_MAX && v.patch <= U32_MAX }

  function Text(v: Update.Version): seq<byte> { Spell(v.major) + [DOT] + Spell(v.minor) + [DOT] + Spell(v.patch) }

  /** Three numbers separated by dots, and nothing else. */
  predicate Triple(text: seq<byte>) {
    && PartAt(text, 0)
    && var a := Run(text, 0);
       && a < |text| && text[a] == DOT && PartAt(text, a + 1)
       && var b := Run(text, a + 1);
          && b < |text| && text[b] == DOT && PartAt(text, b + 1) && Run(text, b + 1) == |text|
  }

  function Number(text: seq<byte>, i: nat): nat
    requires i <= |text|
  {
    Value(text[i..Run(text, i)])
  }

  function VersionOf(text: seq<byte>): Update.Version
    requires Triple(text)
  {
    var a := Run(text, 0);
    var b := Run(text, a + 1);
    Update.Version(Number(text, 0), Number(text, a + 1), Number(text, b + 1))
  }

  datatype Parsed = Bad | Good(version: Update.Version)

  method Parse(text: seq<byte>) returns (r: Parsed)
    ensures r == if Triple(text) then Good(VersionOf(text)) else Bad
  {
    hide Run, Value;
    r := Bad;
    var a := ReadPart(text, 0);
    if a.Part? && a.end < |text| && text[a.end] == DOT {
      var b := ReadPart(text, a.end + 1);
      if b.Part? && b.end < |text| && text[b.end] == DOT {
        var c := ReadPart(text, b.end + 1);
        if c.Part? && c.end == |text| {
          r := Good(Update.Version(a.value, b.value, c.value));
        }
      }
    }
  }

  /** Everything accepted is the canonical text of the version it yields, which fits. */
  lemma AcceptedIsCanonical(text: seq<byte>)
    requires Triple(text)
    ensures Fits(VersionOf(text)) && text == Text(VersionOf(text))
  {
    hide Run, Value, Text, Spell;
    var a := Run(text, 0);
    var b := Run(text, a + 1);
    PartSpells(text, 0);
    PartSpells(text, a + 1);
    PartSpells(text, b + 1);
    assert text[b + 1..|text|] == text[b + 1..];
    Assemble(text, VersionOf(text), a, b);
  }

  /** The text of every version that fits is accepted as that version. */
  lemma TextIsAccepted(v: Update.Version)
    requires Fits(v)
    ensures Triple(Text(v)) && VersionOf(Text(v)) == v
  {
    hide Run, Value, Text, Spell, PartAt;
    var text := Text(v);
    var a := |Spell(v.major)|;
    var b := a + 1 + |Spell(v.minor)|;
    TextPieces(v);
    SpelledPart(text, 0, v.major);
    SpelledPart(text, a + 1, v.minor);
    SpelledPart(text, b + 1, v.patch);
  }

  lemma TextPieces(v: Update.Version)
    ensures var text := Text(v);
            var a := |Spell(v.major)|;
            var b := a + 1 + |Spell(v.minor)|;
            && b < |text| && text[a] == DOT && text[b] == DOT && b + 1 + |Spell(v.patch)| == |text|
            && text[0..a] == Spell(v.major) && text[a + 1..b] == Spell(v.minor) && text[b + 1..|text|] == Spell(v.patch)
  {
    hide Spell;
  }

  lemma PartSpells(text: seq<byte>, i: nat)
    requires i <= |text| && PartAt(text, i)
    ensures text[i..Run(text, i)] == Spell(Number(text, i)) && Number(text, i) <= U32_MAX
  {
    ValueSpell(text[i..Run(text, i)]);
  }

  lemma Assemble(text: seq<byte>, v: Update.Version, a: nat, b: nat)
    requires a < b < |text| && text[a] == DOT && text[b] == DOT
    requires text[0..a] == Spell(v.major) && text[a + 1..b] == Spell(v.minor) && text[b + 1..] == Spell(v.patch)
    ensures text == Text(v)
  {
    assert text == text[0..a] + [text[a]] + text[a + 1..b] + [text[b]] + text[b + 1..];
  }

  /** A digit run followed by a non-digit is read whole. */
  lemma {:induction false} RunOver(text: seq<byte>, i: nat, j: nat)
    requires i <= j <= |text| && Digits(text[i..j]) && (j < |text| ==> !Digit(text[j]))
    ensures Run(text, i) == j
    decreases j - i
  {
    if i < j {
      assert text[i..j][0] == text[i];
      assert text[i + 1..j] == text[i..j][1..];
      RunOver(text, i + 1, j);
    }
  }

  lemma SpelledPart(text: seq<byte>, i: nat, n: nat)
    requires i + |Spell(n)| <= |text| && text[i..i + |Spell(n)|] == Spell(n) && n <= U32_MAX
    requires i + |Spell(n)| < |text| ==> !Digit(text[i + |Spell(n)|])
    ensures PartAt(text, i) && Run(text, i) == i + |Spell(n)| && Number(text, i) == n
  {
    hide Spell;
    var j := i + |Spell(n)|;
    RunOver(text, i, j);
    SpellValue(n);
    assert text[i..j][0] == text[i];
  }
}
