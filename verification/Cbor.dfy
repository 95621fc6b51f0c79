/** Deterministic CBOR (section 4.2.3 of RFC 8949) as manifests use it: encoder and parser are inverse. */
module Cbor {
  import opened Bytes
  import Utf8

  const DEPTH_MAX := 16
  const COUNT_MAX := 65536
  const WORD: nat := 0x1_0000_0000_0000_0000

  datatype Value =
    | Int(negative: bool, n: nat)
    | Blob(bytes: seq<byte>)
    | Text(text: seq<byte>)
    | List(items: Items)
    | Dict(pairs: Pairs)
    | Bool(truth: bool)
    | Null

  datatype Items = Nil | Cons(head: Value, tail: Items)
  datatype Pairs = Empty | Pair(key: seq<byte>, value: Value, rest: Pairs)

  function Length(vs: Items): nat { if vs.Nil? then 0 else 1 + Length(vs.tail) }
  function Size(ps: Pairs): nat { if ps.Empty? then 0 else 1 + Size(ps.rest) }

  // ------------------------------------------------------------- ordering

  /** Unsigned lexicographic order on byte strings of one length. */
  predicate Before(a: seq<byte>, b: seq<byte>)
    requires |a| == |b|
  {
    a != [] && (a[0] < b[0] || (a[0] == b[0] && Before(a[1..], b[1..])))
  }

  /** Deterministic key order: shorter encodings first, then byte order. */
  predicate KeyLess(a: seq<byte>, b: seq<byte>) { |a| < |b| || (|a| == |b| && Before(a, b)) }

  // --------------------------------------------------------------- limits

  predicate TextOk(s: seq<byte>) { |s| < WORD && Utf8.Valid(s, 1) }

  predicate Ok(v: Value, depth: nat)
    decreases v
  {
    depth <= DEPTH_MAX &&
    match v
    case Int(_, n) => n < WORD
    case Blob(b) => |b| < WORD
    case Text(s) => TextOk(s)
    case List(vs) => Length(vs) <= COUNT_MAX && ItemsOk(vs, depth + 1)
    case Dict(ps) => Size(ps) <= COUNT_MAX && PairsOk(ps, depth + 1, [])
    case Bool(_) => true
    case Null => true
  }

  predicate ItemsOk(vs: Items, depth: nat)
    decreases vs
  {
    vs.Cons? ==> Ok(vs.head, depth) && ItemsOk(vs.tail, depth)
  }

  /** Keys are text in strictly increasing order, each above `last` (empty: no key yet). */
  predicate PairsOk(ps: Pairs, depth: nat, last: seq<byte>)
    decreases ps
  {
    ps.Pair? ==>
      && TextOk(ps.key) && (last == [] || KeyLess(last, KeyBytes(ps.key)))
      && Ok(ps.value, depth) && PairsOk(ps.rest, depth, KeyBytes(ps.key))
  }

  // -------------------------------------------------------------- encoder

  function Be(n: nat, k: nat): (s: seq<byte>)
    ensures |s| == k
    decreases k, n
  {
    if k == 0 then [] else Be(n / 256, k - 1) + [n % 256]
  }

  function BeVal(s: seq<byte>): nat {
    if s == [] then 0 else BeVal(s[..|s| - 1]) * 256 + s[|s| - 1]
  }

  /** The shortest head for an argument. */
  function Head(t: nat, n: nat): (s: seq<byte>)
    requires t < 8
    ensures |s| >= 1
  {
    if n < 24 then [32 * t + n]
    else if n < 0x100 then [32 * t + 24] + Be(n, 1)
    else if n < 0x1_0000 then [32 * t + 25] + Be(n, 2)
    else if n < 0x1_0000_0000 then [32 * t + 26] + Be(n, 4)
    else [32 * t + 27] + Be(n, 8)
  }

  function KeyBytes(key: seq<byte>): (s: seq<byte>)
    ensures |s| >= 1
  {
    Head(3, |key|) + key
  }

  function Encode(v: Value): (s: seq<byte>)
    decreases v
  {
    match v
    case Int(neg, n) => Head(if neg then 1 else 0, n)
    case Blob(b) => Head(2, |b|) + b
    case Text(s) => KeyBytes(s)
    case List(vs) => Head(4, Length(vs)) + EncodeItems(vs)
    case Dict(ps) => Head(5, Size(ps)) + EncodePairs(ps)
    case Bool(b) => Head(7, if b then 21 else 20)
    case Null => Head(7, 22)
  }

  function EncodeItems(vs: Items): seq<byte>
    decreases vs
  {
    if vs.Nil? then [] else Encode(vs.head) + EncodeItems(vs.tail)
  }

  function EncodePairs(ps: Pairs): seq<byte>
    decreases ps
  {
    if ps.Empty? then [] else KeyBytes(ps.key) + Encode(ps.value) + EncodePairs(ps.rest)
  }

  // --------------------------------------------------------------- parser

  datatype Parsed<T> = Reject | Accept(value: T, size: nat)

  datatype HeadOf = HeadOf(t: nat, n: nat)

  function ParseHead(p: seq<byte>): (r: Parsed<HeadOf>)
    ensures r.Accept? ==> 1 <= r.size <= |p| && r.value.t < 8
  {
    if p == [] then Reject
    else
      var t, a := p[0] / 32, p[0] % 32;
      if a < 24 then Accept(HeadOf(t, a), 1)
      else if a > 27 then Reject
      else
        var n := if a == 24 then 1 else if a == 25 then 2 else if a == 26 then 4 else 8;
        if |p| - 1 < n then Reject
        else
          var v := BeVal(p[1..1 + n]);
          if v < (if n == 1 then 24 else if n == 2 then 0x100 else if n == 4 then 0x1_0000 else 0x1_0000_0000) then Reject
          else Accept(HeadOf(t, v), 1 + n)
  }

  /** The text or key after a head of type 3. */
  function ParseText(p: seq<byte>): (r: Parsed<seq<byte>>)
    ensures r.Accept? ==> 1 <= r.size <= |p|
  {
    match ParseHead(p)
    case Reject => Reject
    case Accept(h, k) =>
      if h.t != 3 || |p| - k < h.n || !Utf8.Valid(p[k..k + h.n], 1) then Reject else Accept(p[k..k + h.n], k + h.n)
  }

  function Item(p: seq<byte>, depth: nat): (r: Parsed<Value>)
    requires depth <= DEPTH_MAX + 1
    ensures r.Accept? ==> 1 <= r.size <= |p|
    decreases DEPTH_MAX + 1 - depth, 0
  {
    if depth > DEPTH_MAX then Reject
    else
      match ParseHead(p)
      case Reject => Reject
      case Accept(h, k) =>
        if h.t < 2 then Accept(Int(h.t == 1, h.n), k)
        else if h.t == 2 then (if |p| - k < h.n then Reject else Accept(Blob(p[k..k + h.n]), k + h.n))
        else if h.t == 3 then
          (match ParseText(p)
           case Reject => Reject
           case Accept(s, n) => Accept(Text(s), n))
        else if h.t == 7 then
          (if h.n == 20 || h.n == 21 then Accept(Bool(h.n == 21), k) else if h.n == 22 then Accept(Null, k) else Reject)
        else if h.t == 4 && h.n <= COUNT_MAX then
          (match ParseItems(p[k..], depth + 1, h.n)
           case Reject => Reject
           case Accept(vs, n) => Accept(List(vs), k + n))
        else if h.t == 5 && h.n <= COUNT_MAX then
          (match ParsePairs(p[k..], depth + 1, h.n, [])
           case Reject => Reject
           case Accept(ps, n) => Accept(Dict(ps), k + n))
        else Reject
  }

  function ParseItems(p: seq<byte>, depth: nat, n: nat): (r: Parsed<Items>)
    requires depth <= DEPTH_MAX + 1
    ensures r.Accept? ==> r.size <= |p|
    decreases DEPTH_MAX + 1 - depth, n + 1
  {
    if n == 0 then Accept(Nil, 0)
    else
      match Item(p, depth)
      case Reject => Reject
      case Accept(v, k) =>
        match ParseItems(p[k..], depth, n - 1)
        case Reject => Reject
        case Accept(vs, m) => Accept(Cons(v, vs), k + m)
  }

  function ParsePairs(p: seq<byte>, depth: nat, n: nat, last: seq<byte>): (r: Parsed<Pairs>)
    requires depth <= DEPTH_MAX + 1
    ensures r.Accept? ==> r.size <= |p|
    decreases DEPTH_MAX + 1 - depth, n + 1
  {
    if n == 0 then Accept(Empty, 0)
    else
      match ParseText(p)
      case Reject => Reject
      case Accept(key, k) =>
        if last != [] && !KeyLess(last, p[..k]) then Reject
        else
          match Item(p[k..], depth)
          case Reject => Reject
          case Accept(v, j) =>
            match ParsePairs(p[k + j..], depth, n - 1, p[..k])
            case Reject => Reject
            case Accept(ps, m) => Accept(Pair(key, v, ps), k + j + m)
  }

  // ---------------------------------------------------------------- heads

  lemma {:induction false} BeRoundTrip(n: nat, k: nat)
    requires n < Pow256(k)
    ensures BeVal(Be(n, k)) == n
    decreases k
  {
    if k > 0 {
      BeRoundTrip(n / 256, k - 1);
      assert Be(n, k)[..k - 1] == Be(n / 256, k - 1);
    }
  }

  lemma {:induction false} BeCanonical(s: seq<byte>)
    ensures BeVal(s) < Pow256(|s|) && Be(BeVal(s), |s|) == s
  {
    if s != [] {
      var init := s[..|s| - 1];
      BeCanonical(init);
      assert BeVal(s) / 256 == BeVal(init);
      assert s == init + [s[|s| - 1]];
    }
  }

  lemma HeadParses(t: nat, n: nat, rest: seq<byte>)
    requires t < 8 && n < WORD
    ensures ParseHead(Head(t, n) + rest) == Accept(HeadOf(t, n), |Head(t, n)|)
  {
    hide Be, BeVal, Pow256;
    Pow256Values();
    assert Pow256(1) == 256 by { PowOne(); }
    var p := Head(t, n) + rest;
    if n >= 24 {
      var k := if n < 0x100 then 1 else if n < 0x1_0000 then 2 else if n < 0x1_0000_0000 then 4 else 8;
      BeRoundTrip(n, k);
      assert p[1..1 + k] == Be(n, k);
    }
  }

  lemma PowOne()
    ensures Pow256(1) == 256
  {
    assert Pow256(0) == 1;
  }

  lemma ParsedHead(p: seq<byte>)
    requires ParseHead(p).Accept?
    ensures var r := ParseHead(p); r.value.n < WORD && p[..r.size] == Head(r.value.t, r.value.n)
  {
    hide Be, BeVal, Pow256;
    Pow256Values();
    assert Pow256(1) == 256 by { PowOne(); }
    var r := ParseHead(p);
    if p[0] % 32 >= 24 {
      var s := p[1..r.size];
      BeCanonical(s);
      assert p[..r.size] == [p[0]] + s;
    } else {
      assert p[..1] == [p[0]];
    }
  }

  // ---------------------------------------------------- parse what was encoded

  lemma TextParses(s: seq<byte>, rest: seq<byte>)
    requires TextOk(s)
    ensures ParseText(KeyBytes(s) + rest) == Accept(s, |KeyBytes(s)|)
  {
    hide Head, ParseHead, Utf8.Valid;
    var h := Head(3, |s|);
    HeadParses(3, |s|, s + rest);
    assert KeyBytes(s) + rest == h + (s + rest);
    assert (h + (s + rest))[|h|..|h| + |s|] == s;
  }

  /** Every value within the limits is accepted, whole, as itself. */
  lemma {:induction false} EncodeParses(v: Value, depth: nat, rest: seq<byte>)
    requires Ok(v, depth)
    ensures Item(Encode(v) + rest, depth) == Accept(v, |Encode(v)|)
    decreases v, 1
  {
    hide Item, Encode;
    match v
    case List(vs) => ListParses(vs, depth, rest);
    case Dict(ps) => DictParses(ps, depth, rest);
    case _ => LeafParses(v, depth, rest);
  }

  lemma LeafParses(v: Value, depth: nat, rest: seq<byte>)
    requires Ok(v, depth) && !v.List? && !v.Dict?
    ensures Item(Encode(v) + rest, depth) == Accept(v, |Encode(v)|)
  {
    hide Head, ParseHead, ParseText, ParseItems, ParsePairs, TextOk, KeyLess, KeyBytes;
    match v
    case Int(neg, n) => HeadParses(if neg then 1 else 0, n, rest);
    case Blob(b) =>
      HeadParses(2, |b|, b + rest);
      assert Encode(v) + rest == Head(2, |b|) + (b + rest);
      assert (Head(2, |b|) + (b + rest))[|Head(2, |b|)|..|Head(2, |b|)| + |b|] == b;
    case Text(s) =>
      TextParses(s, rest);
      TextHead(s, rest);
    case Bool(b) => HeadParses(7, if b then 21 else 20, rest);
    case Null => HeadParses(7, 22, rest);
  }

  lemma {:induction false} ListParses(vs: Items, depth: nat, rest: seq<byte>)
    requires Ok(List(vs), depth)
    ensures Item(Encode(List(vs)) + rest, depth) == Accept(List(vs), |Encode(List(vs))|)
    decreases List(vs), 0
  {
    hide Head, ParseHead, ParseText, ParseItems, ParsePairs, ItemsOk, EncodeItems;
    var h, e := Head(4, Length(vs)), EncodeItems(vs);
    HeadParses(4, Length(vs), e + rest);
    assert Encode(List(vs)) + rest == h + (e + rest);
    assert (h + (e + rest))[|h|..] == e + rest;
    ItemsParse(vs, depth + 1, rest);
  }

  lemma {:induction false} DictParses(ps: Pairs, depth: nat, rest: seq<byte>)
    requires Ok(Dict(ps), depth)
    ensures Item(Encode(Dict(ps)) + rest, depth) == Accept(Dict(ps), |Encode(Dict(ps))|)
    decreases Dict(ps), 0
  {
    hide Head, ParseHead, ParseText, ParseItems, ParsePairs, PairsOk, EncodePairs;
    var h, e := Head(5, Size(ps)), EncodePairs(ps);
    HeadParses(5, Size(ps), e + rest);
    assert Encode(Dict(ps)) + rest == h + (e + rest);
    assert (h + (e + rest))[|h|..] == e + rest;
    PairsParse(ps, depth + 1, [], rest);
  }

  lemma TextHead(s: seq<byte>, rest: seq<byte>)
    requires TextOk(s)
    ensures ParseHead(KeyBytes(s) + rest) == Accept(HeadOf(3, |s|), |Head(3, |s|)|)
  {
    hide Head, ParseHead, Utf8.Valid;
    HeadParses(3, |s|, s + rest);
    assert KeyBytes(s) + rest == Head(3, |s|) + (s + rest);
  }

  lemma {:induction false} ItemsParse(vs: Items, depth: nat, rest: seq<byte>)
    requires ItemsOk(vs, depth) && depth <= DEPTH_MAX + 1
    ensures ParseItems(EncodeItems(vs) + rest, depth, Length(vs)) == Accept(vs, |EncodeItems(vs)|)
    decreases vs
  {
    hide Item, Encode, Ok;
    if vs.Cons? {
      var tail := EncodeItems(vs.tail) + rest;
      EncodeParses(vs.head, depth, tail);
      ItemsParse(vs.tail, depth, rest);
      assert EncodeItems(vs) + rest == Encode(vs.head) + tail;
      assert (Encode(vs.head) + tail)[|Encode(vs.head)|..] == tail;
    }
  }

  lemma {:induction false} PairsParse(ps: Pairs, depth: nat, last: seq<byte>, rest: seq<byte>)
    requires PairsOk(ps, depth, last) && depth <= DEPTH_MAX + 1
    ensures ParsePairs(EncodePairs(ps) + rest, depth, Size(ps), last) == Accept(ps, |EncodePairs(ps)|)
    decreases ps
  {
    hide Item, Encode, Ok, ParseText, KeyBytes, TextOk, KeyLess, ParsePairs;
    if ps.Empty? {
      NoPairs(EncodePairs(ps) + rest, depth, last);
    } else {
      var key, value, tail := KeyBytes(ps.key), Encode(ps.value), EncodePairs(ps.rest) + rest;
      TextParses(ps.key, value + tail);
      EncodeParses(ps.value, depth, tail);
      PairsParse(ps.rest, depth, key, rest);
      var p := EncodePairs(ps) + rest;
      assert p == key + (value + tail);
      assert p[|key|..] == value + tail && p[..|key|] == key;
      assert p[|key| + |value|..] == tail;
      PairsBuild(p, depth, Size(ps), last, ps.key, |key|, ps.value, |value|, ps.rest, |EncodePairs(ps.rest)|);
    }
  }

  /** A pair in front of accepted pairs. */
  lemma PairsBuild(p: seq<byte>, depth: nat, n: nat, last: seq<byte>, key: seq<byte>, k: nat, v: Value, j: nat, ps: Pairs, m: nat)
    requires depth <= DEPTH_MAX + 1 && n > 0
    requires ParseText(p) == Accept(key, k) && k <= |p| && Item(p[k..], depth) == Accept(v, j) && k + j <= |p|
    requires last == [] || KeyLess(last, p[..k])
    requires ParsePairs(p[k + j..], depth, n - 1, p[..k]) == Accept(ps, m)
    ensures ParsePairs(p, depth, n, last) == Accept(Pair(key, v, ps), k + j + m)
  {
    hide ParseText, Item, KeyLess, ParseItems;
  }

  // ------------------------------------------------- encode what was parsed

  lemma ParsedText(p: seq<byte>)
    requires ParseText(p).Accept?
    ensures var r := ParseText(p); TextOk(r.value) && p[..r.size] == KeyBytes(r.value)
  {
    hide Head, ParseHead, Utf8.Valid;
    ParsedHead(p);
    var k := ParseHead(p).size;
    var n := ParseHead(p).value.n;
    assert p[..k + n] == p[..k] + p[k..k + n];
  }

  /** Everything accepted is the deterministic encoding of the value it stands for. */
  lemma {:induction false} ParsedEncodes(p: seq<byte>, depth: nat)
    requires depth <= DEPTH_MAX + 1 && Item(p, depth).Accept?
    ensures var r := Item(p, depth); Ok(r.value, depth) && p[..r.size] == Encode(r.value)
    decreases DEPTH_MAX + 1 - depth, 0
  {
    hide Head, ParseHead, ParseText, ParseItems, ParsePairs, TextOk, KeyLess, KeyBytes;
    ParsedHead(p);
    var h, k := ParseHead(p).value, ParseHead(p).size;
    if h.t == 2 {
      assert p[..k + h.n] == p[..k] + p[k..k + h.n];
    } else if h.t == 3 {
      ParsedText(p);
    } else if h.t == 4 {
      ParsedItems(p[k..], depth + 1, h.n);
      var n := ParseItems(p[k..], depth + 1, h.n).size;
      assert p[..k + n] == p[..k] + p[k..][..n];
    } else if h.t == 5 {
      ParsedPairs(p[k..], depth + 1, h.n, []);
      var n := ParsePairs(p[k..], depth + 1, h.n, []).size;
      assert p[..k + n] == p[..k] + p[k..][..n];
    }
  }

  lemma {:induction false} ParsedItems(p: seq<byte>, depth: nat, n: nat)
    requires depth <= DEPTH_MAX + 1 && ParseItems(p, depth, n).Accept?
    ensures var r := ParseItems(p, depth, n);
            Length(r.value) == n && ItemsOk(r.value, depth) && p[..r.size] == EncodeItems(r.value)
    decreases DEPTH_MAX + 1 - depth, n + 1
  {
    hide Item, Encode, Ok;
    if n > 0 {
      var k := Item(p, depth).size;
      ParsedEncodes(p, depth);
      ParsedItems(p[k..], depth, n - 1);
      var m := ParseItems(p[k..], depth, n - 1).size;
      assert p[..k + m] == p[..k] + p[k..][..m];
    }
  }

  /** The first pair of an accepted dictionary and what follows it. */
  lemma PairsStep(p: seq<byte>, depth: nat, n: nat, last: seq<byte>)
    returns (key: seq<byte>, k: nat, v: Value, j: nat, ps: Pairs, m: nat)
    requires depth <= DEPTH_MAX + 1 && n > 0 && ParsePairs(p, depth, n, last).Accept?
    ensures ParseText(p) == Accept(key, k) && k <= |p| && Item(p[k..], depth) == Accept(v, j) && k + j <= |p|
    ensures last == [] || KeyLess(last, p[..k])
    ensures ParsePairs(p[k + j..], depth, n - 1, p[..k]) == Accept(ps, m) && k + j + m <= |p|
    ensures ParsePairs(p, depth, n, last) == Accept(Pair(key, v, ps), k + j + m)
  {
    hide ParseText, Item, KeyLess, ParseItems;
    key, k := ParseText(p).value, ParseText(p).size;
    v, j := Item(p[k..], depth).value, Item(p[k..], depth).size;
    ps := ParsePairs(p[k + j..], depth, n - 1, p[..k]).value;
    m := ParsePairs(p[k + j..], depth, n - 1, p[..k]).size;
  }

  lemma {:induction false} ParsedPairs(p: seq<byte>, depth: nat, n: nat, last: seq<byte>)
    requires depth <= DEPTH_MAX + 1 && ParsePairs(p, depth, n, last).Accept?
    ensures var r := ParsePairs(p, depth, n, last);
            Size(r.value) == n && PairsOk(r.value, depth, last) && p[..r.size] == EncodePairs(r.value)
    decreases DEPTH_MAX + 1 - depth, n + 1
  {
    hide Item, Encode, Ok, ParseText, TextOk, KeyLess, KeyBytes, ParsePairs;
    if n == 0 {
      NoPairs(p, depth, last);
    } else {
      var key, k, v, j, ps, m := PairsStep(p, depth, n, last);
      ParsedText(p);
      ParsedEncodes(p[k..], depth);
      ParsedPairs(p[k + j..], depth, n - 1, p[..k]);
      assert p[..k + j + m] == p[..k] + p[k..][..j] + p[k + j..][..m];
    }
  }

  lemma NoPairs(p: seq<byte>, depth: nat, last: seq<byte>)
    ensures depth <= DEPTH_MAX + 1 ==> ParsePairs(p, depth, 0, last) == Accept(Empty, 0)
    ensures PairsOk(Empty, depth, last) && EncodePairs(Empty) == []
  {
  }

  /** An accepted byte string is the encoding of exactly one value. */
  lemma OneMeaning(v: Value, w: Value, depth: nat)
    requires Ok(v, depth) && Ok(w, depth) && Encode(v) == Encode(w)
    ensures v == w
  {
    hide Ok, Item, Encode;
    EncodeParses(v, depth, []);
    EncodeParses(w, depth, []);
  }

  // --------------------------------------------------- the format, in bytes

  /** Big-endian: the byte at `i` is the digit of weight 256 to the `k - 1 - i`. */
  lemma {:induction false} BeDigit(n: nat, k: nat, i: nat)
    requires i < k
    ensures Be(n, k)[i] == n / Pow256(k - 1 - i) % 256
    decreases k
  {
    if i < k - 1 {
      BeDigit(n / 256, k - 1, i);
      DivDiv(n, Pow256(k - 2 - i));
    }
  }

  lemma DivDiv(n: nat, d: nat)
    requires d > 0
    ensures n / 256 / d == n / (256 * d)
  {
    var q, r := n / 256 / d, n / 256 % d;
    assert n / 256 == q * d + r;
    assert n == q * (256 * d) + (256 * r + n % 256);
    DivMod(q, 256 * r + n % 256, 256 * d);
  }

  /** An item opens with its type in the high three bits and its argument in the fewest bytes that hold it. */
  lemma HeadBytes(t: nat, n: nat)
    requires t < 8 && n < WORD
    ensures Head(t, n)[0] / 32 == t
    ensures n < 24 <==> |Head(t, n)| == 1 && Head(t, n)[0] % 32 == n
    ensures 24 <= n < 0x100 <==> |Head(t, n)| == 2 && Head(t, n)[0] % 32 == 24
    ensures 0x100 <= n < 0x1_0000 <==> |Head(t, n)| == 3 && Head(t, n)[0] % 32 == 25
    ensures 0x1_0000 <= n < 0x1_0000_0000 <==> |Head(t, n)| == 5 && Head(t, n)[0] % 32 == 26
    ensures 0x1_0000_0000 <= n <==> |Head(t, n)| == 9 && Head(t, n)[0] % 32 == 27
    ensures n >= 24 ==> BeVal(Head(t, n)[1..]) == n
  {
    hide Be, BeVal, Pow256;
    Pow256Values();
    assert Pow256(1) == 256 by { PowOne(); }
    if n >= 24 {
      var k := |Head(t, n)| - 1;
      BeRoundTrip(n, k);
      assert Head(t, n)[1..] == Be(n, k);
    }
  }

  /** The first byte of an item names its kind. */
  lemma KindBytes(v: Value)
    requires Ok(v, 0)
    ensures Encode(v) != []
    ensures v.Int? && !v.negative <==> Encode(v)[0] / 32 == 0
    ensures v.Int? && v.negative <==> Encode(v)[0] / 32 == 1
    ensures v.Blob? <==> Encode(v)[0] / 32 == 2
    ensures v.Text? <==> Encode(v)[0] / 32 == 3
    ensures v.List? <==> Encode(v)[0] / 32 == 4
    ensures v.Dict? <==> Encode(v)[0] / 32 == 5
    ensures v == Bool(false) <==> Encode(v) == [0xf4]
    ensures v == Bool(true) <==> Encode(v) == [0xf5]
    ensures v == Null <==> Encode(v) == [0xf6]
  {
    hide Be;
  }

  /** Encodings that appendix A of RFC 8949 lists. */
  lemma Vectors()
    ensures Encode(Int(false, 1000)) == [0x19, 0x03, 0xe8]
    ensures Encode(Int(true, 9)) == [0x29]
    ensures Encode(Blob([1, 2, 3, 4])) == [0x44, 1, 2, 3, 4]
    ensures Encode(Text([0xe6, 0xb0, 0xb4])) == [0x63, 0xe6, 0xb0, 0xb4]
  {
    assert Be(1000, 2) == [3, 0xe8] by { assert Be(3, 1) == [3]; }
    hide Be;
  }

  lemma ListVector()
    ensures Encode(List(Cons(Int(false, 1), Cons(Int(false, 2), Nil)))) == [0x82, 1, 2]
  {
    hide Be;
    var two := Cons(Int(false, 2), Nil);
    assert EncodeItems(two) == [2] by { assert Encode(two.head) == [2] && EncodeItems(Nil) == []; }
    var one := Cons(Int(false, 1), two);
    assert Length(one) == 2;
    assert EncodeItems(one) == [1, 2] by { assert Encode(one.head) == [1]; }
  }

  lemma DictVector()
    ensures Encode(Dict(Pair([0x61], Int(false, 1), Empty))) == [0xa1, 0x61, 0x61, 1]
  {
    hide Be;
    var ps := Pair([0x61], Int(false, 1), Empty);
    assert Size(ps) == 1;
    assert KeyBytes(ps.key) == [0x61, 0x61] && Encode(ps.value) == [1] && EncodePairs(Empty) == [];
  }
}
