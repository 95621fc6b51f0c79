/** The encoder's key sorting, and the cursor-based parser that checks and searches manifests. */
module CborReader {
  import opened Bytes
  import opened Cbor
  import Utf8

  // -------------------------------------------------- sorting in the encoder

  lemma {:induction false} BeforeTotal(a: seq<byte>, b: seq<byte>)
    requires |a| == |b|
    ensures a == b || Before(a, b) || Before(b, a)
  {
    if a != [] {
      BeforeTotal(a[1..], b[1..]);
      assert a == [a[0]] + a[1..] && b == [b[0]] + b[1..];
    }
  }

  function Lookup(ps: Pairs, key: seq<byte>): Parsed<Value> {
    if ps.Empty? then Reject else if ps.key == key then Accept(ps.value, 0) else Lookup(ps.rest, key)
  }

  predicate Distinct(ps: Pairs) { ps.Pair? ==> Lookup(ps.rest, ps.key) == Reject && Distinct(ps.rest) }

  function Insert(ps: Pairs, key: seq<byte>, v: Value): Pairs {
    if ps.Empty? || KeyLess(KeyBytes(key), KeyBytes(ps.key)) then Pair(key, v, ps)
    else Pair(ps.key, ps.value, Insert(ps.rest, key, v))
  }

  lemma KeysDiffer(a: seq<byte>, b: seq<byte>)
    requires TextOk(a) && TextOk(b) && a != b
    ensures KeyLess(KeyBytes(a), KeyBytes(b)) || KeyLess(KeyBytes(b), KeyBytes(a))
  {
    hide TextOk, KeyBytes, Before, ParseText;
    TextParses(a, []);
    TextParses(b, []);
    assert KeyBytes(a) + [] == KeyBytes(a) && KeyBytes(b) + [] == KeyBytes(b);
    if |KeyBytes(a)| == |KeyBytes(b)| {
      BeforeTotal(KeyBytes(a), KeyBytes(b));
    }
  }

  lemma {:induction false} InsertOk(ps: Pairs, depth: nat, last: seq<byte>, key: seq<byte>, v: Value)
    requires PairsOk(ps, depth, last) && Lookup(ps, key) == Reject && TextOk(key) && Ok(v, depth)
    requires last == [] || KeyLess(last, KeyBytes(key))
    ensures PairsOk(Insert(ps, key, v), depth, last)
  {
    hide TextOk, KeyBytes, KeyLess, Ok;
    if ps.Pair? && !KeyLess(KeyBytes(key), KeyBytes(ps.key)) {
      KeysDiffer(key, ps.key);
      InsertOk(ps.rest, depth, KeyBytes(ps.key), key, v);
    }
  }

  lemma {:induction false} InsertLookup(ps: Pairs, key: seq<byte>, v: Value, k: seq<byte>)
    requires Lookup(ps, key) == Reject
    ensures Lookup(Insert(ps, key, v), k) == if k == key then Accept(v, 0) else Lookup(ps, k)
    ensures Size(Insert(ps, key, v)) == Size(ps) + 1
  {
    hide KeyLess, KeyBytes;
    if ps.Pair? && !KeyLess(KeyBytes(key), KeyBytes(ps.key)) {
      InsertLookup(ps.rest, key, v, k);
    }
  }

  /** The value whose encoding the packaging tool emits: every dictionary in key order. */
  function Canon(v: Value): Value
    decreases v
  {
    match v
    case List(vs) => List(CanonItems(vs))
    case Dict(ps) => Dict(CanonPairs(ps))
    case _ => v
  }

  function CanonItems(vs: Items): Items
    decreases vs
  {
    if vs.Nil? then Nil else Cons(Canon(vs.head), CanonItems(vs.tail))
  }

  function CanonPairs(ps: Pairs): Pairs
    decreases ps
  {
    if ps.Empty? then Empty else Insert(CanonPairs(ps.rest), ps.key, Canon(ps.value))
  }

  /** Within the limits, with dictionaries in any order. */
  predicate Loose(v: Value, depth: nat)
    decreases v
  {
    depth <= DEPTH_MAX &&
    match v
    case List(vs) => Length(vs) <= COUNT_MAX && LooseItems(vs, depth + 1)
    case Dict(ps) => Size(ps) <= COUNT_MAX && Distinct(ps) && LoosePairs(ps, depth + 1)
    case Int(_, n) => n < WORD
    case Blob(b) => |b| < WORD
    case Text(s) => TextOk(s)
    case Bool(_) => true
    case Null => true
  }

  predicate LooseItems(vs: Items, depth: nat)
    decreases vs
  {
    vs.Cons? ==> Loose(vs.head, depth) && LooseItems(vs.tail, depth)
  }

  predicate LoosePairs(ps: Pairs, depth: nat)
    decreases ps
  {
    ps.Pair? ==> TextOk(ps.key) && Loose(ps.value, depth) && LoosePairs(ps.rest, depth)
  }

  /** Whatever order the entries came in, the emitted encoding is accepted, whole. */
  lemma {:induction false} CanonOk(v: Value, depth: nat)
    requires Loose(v, depth)
    ensures Ok(Canon(v), depth)
    decreases v
  {
    hide TextOk;
    match v
    case List(vs) => CanonItemsOk(vs, depth + 1);
    case Dict(ps) => CanonPairsOk(ps, depth + 1);
    case _ =>
  }

  lemma {:induction false} CanonItemsOk(vs: Items, depth: nat)
    requires LooseItems(vs, depth)
    ensures ItemsOk(CanonItems(vs), depth) && Length(CanonItems(vs)) == Length(vs)
    decreases vs
  {
    hide Ok, Loose, Canon;
    if vs.Cons? {
      CanonOk(vs.head, depth);
      CanonItemsOk(vs.tail, depth);
    }
  }

  lemma {:induction false} CanonPairsOk(ps: Pairs, depth: nat)
    requires LoosePairs(ps, depth) && Distinct(ps)
    ensures PairsOk(CanonPairs(ps), depth, []) && Size(CanonPairs(ps)) == Size(ps)
    ensures forall k :: Lookup(CanonPairs(ps), k) == match Lookup(ps, k) case Reject => Reject case Accept(v, _) => Accept(Canon(v), 0)
    decreases ps
  {
    hide Ok, Loose, Canon, TextOk, Insert, PairsOk;
    if ps.Pair? {
      CanonOk(ps.value, depth);
      CanonPairsOk(ps.rest, depth);
      assert Lookup(CanonPairs(ps.rest), ps.key) == Reject;
      InsertOk(CanonPairs(ps.rest), depth, [], ps.key, Canon(ps.value));
      forall k
        ensures Lookup(CanonPairs(ps), k) == match Lookup(ps, k) case Reject => Reject case Accept(v, _) => Accept(Canon(v), 0)
      {
        InsertLookup(CanonPairs(ps.rest), ps.key, Canon(ps.value), k);
      }
      InsertLookup(CanonPairs(ps.rest), ps.key, Canon(ps.value), []);
    } else {
      assert PairsOk(CanonPairs(ps), depth, []) by { NoPairs([], depth, []); }
    }
  }

  // -------------------------------------------------------------- the cursor

  method ReadHead(p: seq<byte>, i: nat) returns (ok: bool, t: nat, v: nat, j: nat)
    requires i <= |p|
    ensures ok == ParseHead(p[i..]).Accept?
    ensures ok ==> i < j <= |p| && ParseHead(p[i..]) == Accept(HeadOf(t, v), j - i)
  {
    hide BeVal;
    ok, t, v, j := false, 0, 0, i;
    if i == |p| {
      return;
    }
    var b := p[i];
    j := i + 1;
    t := b / 32;
    var a := b % 32;
    if a < 24 {
      v, ok := a, true;
      return;
    }
    var n := if a == 24 then 1 else if a == 25 then 2 else if a == 26 then 4 else if a == 27 then 8 else 0;
    if n == 0 || |p| - j < n {
      return;
    }
    ghost var rest := p[i..];
    BeEmpty();
    assert rest[1..1] == [];
    for k := 0 to n
      invariant j == i + 1 + k && v == BeVal(rest[1..1 + k])
    {
      BeStep(rest[1..1 + k], p[j]);
      assert rest[1..1 + k + 1] == rest[1..1 + k] + [p[j]];
      v := v * 256 + p[j];
      j := j + 1;
    }
    ok := v >= (if n == 1 then 24 else if n == 2 then 0x100 else if n == 4 then 0x1_0000 else 0x1_0000_0000);
  }

  lemma BeEmpty()
    ensures BeVal([]) == 0
  {
  }

  lemma BeStep(s: seq<byte>, b: byte)
    ensures BeVal(s + [b]) == BeVal(s) * 256 + b
  {
    assert (s + [b])[..|s|] == s;
  }

  method ReadText(p: seq<byte>, i: nat) returns (ok: bool, from: nat, j: nat)
    requires i <= |p|
    ensures ok == ParseText(p[i..]).Accept?
    ensures ok ==> i < from <= j <= |p| && ParseText(p[i..]) == Accept(p[from..j], j - i)
  {
    hide ParseHead, Utf8.Valid;
    var t, n;
    ok, t, n, from := ReadHead(p, i);
    j := from;
    if !ok {
      return;
    }
    if t != 3 || n > |p| - from {
      ok := false;
      return;
    }
    assert p[i..][from - i..from - i + n] == p[from..from + n];
    ok := Utf8.Check(p[from..from + n], 1);
    j := from + n;
  }

  /** Accepts one item at `i`, leaving the cursor after it. */
  method ReadItem(p: seq<byte>, i: nat, depth: nat) returns (ok: bool, j: nat)
    requires i <= |p| && depth <= DEPTH_MAX + 1
    ensures ok == Item(p[i..], depth).Accept?
    ensures ok ==> j == i + Item(p[i..], depth).size && j <= |p|
    decreases DEPTH_MAX + 1 - depth, 0
  {
    hide ParseHead, ParseText, ParseItems, ParsePairs;
    j := i;
    if depth > DEPTH_MAX {
      return false, j;
    }
    var t, n;
    ok, t, n, j := ReadHead(p, i);
    if !ok || t < 2 {
      return;
    }
    assert p[i..][j - i..] == p[j..];
    if t == 2 {
      ok := n <= |p| - j;
      if ok {
        j := j + n;
      }
      return;
    }
    if t == 3 {
      var from;
      ok, from, j := ReadText(p, i);
      return;
    }
    if t == 7 {
      ok := n == 20 || n == 21 || n == 22;
      return;
    }
    if (t != 4 && t != 5) || n > COUNT_MAX {
      return false, j;
    }
    if t == 4 {
      ok, j := ReadItems(p, j, depth + 1, n);
    } else {
      ok, j := ReadPairs(p, j, depth + 1, n);
    }
  }

  method ReadItems(p: seq<byte>, i: nat, depth: nat, n: nat) returns (ok: bool, j: nat)
    requires i <= |p| && depth <= DEPTH_MAX + 1
    ensures ok == ParseItems(p[i..], depth, n).Accept?
    ensures ok ==> j == i + ParseItems(p[i..], depth, n).size && j <= |p|
    decreases DEPTH_MAX + 1 - depth, n + 1
  {
    hide Item;
    j := i;
    for k := 0 to n
      invariant i <= j <= |p|
      invariant ParseItems(p[i..], depth, n).Accept? == ParseItems(p[j..], depth, n - k).Accept?
      invariant ParseItems(p[j..], depth, n - k).Accept? ==>
                  i + ParseItems(p[i..], depth, n).size == j + ParseItems(p[j..], depth, n - k).size
    {
      var at := j;
      ok, j := ReadItem(p, at, depth);
      if !ok {
        return;
      }
      assert p[at..][j - at..] == p[j..];
    }
    ok := true;
  }

  /** A bad key, a key out of order or a bad value rejects the whole map. */
  lemma PairsStop(p: seq<byte>, start: nat, mid: nat, depth: nat, n: nat, last: seq<byte>)
    requires start <= mid <= |p| && depth <= DEPTH_MAX + 1 && n > 0
    requires ParseText(p[start..]).Accept? ==>
               && ParseText(p[start..]).size == mid - start
               && ((last != [] && !KeyLess(last, p[start..mid])) || Item(p[mid..], depth).Reject?)
    ensures ParsePairs(p[start..], depth, n, last).Reject?
  {
    hide ParseText, Item, KeyLess;
    assert p[start..][..mid - start] == p[start..mid];
    assert p[start..][mid - start..] == p[mid..];
  }

  /** A pair read in order leaves the rest of the map. */
  lemma PairsNext(p: seq<byte>, start: nat, mid: nat, j: nat, depth: nat, n: nat, last: seq<byte>)
    requires start <= mid <= j <= |p| && depth <= DEPTH_MAX + 1 && n > 0
    requires ParseText(p[start..]).Accept? && ParseText(p[start..]).size == mid - start
    requires last == [] || KeyLess(last, p[start..mid])
    requires Item(p[mid..], depth).Accept? && Item(p[mid..], depth).size == j - mid
    ensures var all, rest := ParsePairs(p[start..], depth, n, last), ParsePairs(p[j..], depth, n - 1, p[start..mid]);
            all.Accept? == rest.Accept? && (all.Accept? ==> all.size == j - start + rest.size)
  {
    hide ParseText, Item, KeyLess;
    assert p[start..][..mid - start] == p[start..mid];
    assert p[start..][mid - start..] == p[mid..];
    assert p[start..][mid - start + (j - mid)..] == p[j..];
  }

  lemma PairsDone(p: seq<byte>, depth: nat, last: seq<byte>)
    requires depth <= DEPTH_MAX + 1
    ensures ParsePairs(p, depth, 0, last) == Accept(Empty, 0)
  {
  }

  method ReadPairs(p: seq<byte>, i: nat, depth: nat, n: nat) returns (ok: bool, j: nat)
    requires i <= |p| && depth <= DEPTH_MAX + 1
    ensures ok == ParsePairs(p[i..], depth, n, []).Accept?
    ensures ok ==> j == i + ParsePairs(p[i..], depth, n, []).size && j <= |p|
    decreases DEPTH_MAX + 1 - depth, n + 1
  {
    hide Item, ParseText, ParsePairs, Before;
    j := i;
    var last: seq<byte> := [];
    for k := 0 to n
      invariant i <= j <= |p|
      invariant ParsePairs(p[i..], depth, n, []).Accept? == ParsePairs(p[j..], depth, n - k, last).Accept?
      invariant ParsePairs(p[j..], depth, n - k, last).Accept? ==>
                  i + ParsePairs(p[i..], depth, n, []).size == j + ParsePairs(p[j..], depth, n - k, last).size
    {
      var start := j;
      var from;
      ok, from, j := ReadText(p, start);
      if !ok {
        PairsStop(p, start, start, depth, n - k, last);
        return;
      }
      var at, key := j, p[start..j];
      if last != [] && (|key| < |last| || (|key| == |last| && !Before(last, key))) {
        PairsStop(p, start, at, depth, n - k, last);
        ok := false;
        return;
      }
      ok, j := ReadItem(p, at, depth);
      if !ok {
        PairsStop(p, start, at, depth, n - k, last);
        return;
      }
      PairsNext(p, start, at, j, depth, n - k, last);
      last := key;
    }
    PairsDone(p[j..], depth, last);
    ok := true;
  }

  // ------------------------------------------------------------- manifests

  datatype Found = BadFormat | NotFound | Found(text: seq<byte>)

  /** Map lookup of a text field that must fit in `size` bytes with its terminator. */
  function Field(ps: Pairs, key: seq<byte>, size: nat): Found {
    match Lookup(ps, key)
    case Reject => NotFound
    case Accept(v, _) => FieldText(v, size)
  }

  function FieldText(v: Value, size: nat): Found {
    if v.Text? && |v.text| < size then Found(v.text) else BadFormat
  }

  /** On an accepted manifest the search is the map lookup. */
  method ManifestText(p: seq<byte>, key: seq<byte>, size: nat) returns (r: Found)
    ensures Item(p, 0).Accept? && Item(p, 0).value.Dict? ==> r == Field(Item(p, 0).value.pairs, key, size)
  {
    hide ParseText, ParseHead, Item, KeyLess, ParsePairs, Lookup;
    var ok, t, n, j := ReadHead(p, 0);
    assert p[0..] == p;
    if !ok || t != 5 {
      NotDict(p);
      return BadFormat;
    }
    ghost var good := Item(p, 0).Accept?;
    ghost var last: seq<byte> := [];
    DictPairs(p);
    ghost var all := if good then Item(p, 0).value.pairs else Empty;
    for k := 0 to n
      invariant 0 <= j <= |p|
      invariant good ==> ParsePairs(p[j..], 1, n - k, last).Accept?
      invariant good ==> Lookup(all, key) == Lookup(ParsePairs(p[j..], 1, n - k, last).value, key)
    {
      var start := j;
      if good {
        var text, len, v, size, ps, m := PairsStep(p[start..], 1, n - k, last);
        LookupPair(text, v, ps, key);
      }
      var from, found;
      ok, from, j := SkipKey(p, start);
      if !ok {
        return BadFormat;
      }
      found := p[from..j] == key;
      var at := j;
      assert p[start..][at - start..] == p[at..];
      if found {
        r := ReadField(p, at, size);
        return;
      }
      ok, j := ReadItem(p, at, 1);
      if !ok {
        return BadFormat;
      }
      assert p[start..][j - start..] == p[j..];
      last := p[start..][..at - start];
    }
    if good {
      PairsEnd(p[j..], last, key);
    }
    return NotFound;
  }

  /** Past the key at `i`; unlike the full check, its text is not validated again. */
  method SkipKey(p: seq<byte>, i: nat) returns (ok: bool, from: nat, j: nat)
    requires i <= |p|
    ensures ParseText(p[i..]).Accept? ==> ok
    ensures ok ==> i < from <= j <= |p| && (ParseText(p[i..]).Accept? ==> ParseText(p[i..]) == Accept(p[from..j], j - i))
  {
    hide ParseHead, ParseText;
    var t, len;
    ok, t, len, from := ReadHead(p, i);
    TextOfHead(p[i..]);
    j := from;
    if !ok || t != 3 || len > |p| - from {
      ok := false;
      return;
    }
    j := from + len;
    assert p[i..][from - i..j - i] == p[from..j];
  }

  method ReadField(p: seq<byte>, i: nat, size: nat) returns (r: Found)
    requires i <= |p|
    ensures Item(p[i..], 1).Accept? ==> r == FieldText(Item(p[i..], 1).value, size)
  {
    hide ParseHead, Item;
    var ok, t, len, j := ReadHead(p, i);
    if Item(p[i..], 1).Accept? {
      FieldOfItem(p[i..]);
    }
    if !ok || t != 3 || len >= size || len > |p| - j {
      return BadFormat;
    }
    assert p[i..][j - i..j - i + len] == p[j..j + len];
    return Found(p[j..j + len]);
  }

  lemma LookupPair(k: seq<byte>, v: Value, ps: Pairs, key: seq<byte>)
    ensures Lookup(Pair(k, v, ps), key) == if k == key then Accept(v, 0) else Lookup(ps, key)
  {
  }

  lemma PairsEnd(p: seq<byte>, last: seq<byte>, key: seq<byte>)
    ensures ParsePairs(p, 1, 0, last) == Accept(Empty, 0) && Lookup(Empty, key) == Reject
  {
  }

  lemma NotDict(p: seq<byte>)
    requires ParseHead(p).Reject? || ParseHead(p).value.t != 5
    ensures Item(p, 0).Accept? ==> !Item(p, 0).value.Dict?
  {
    hide ParseHead, ParseText, ParseItems, ParsePairs;
  }

  lemma DictPairs(p: seq<byte>)
    requires ParseHead(p).Accept? && ParseHead(p).value.t == 5
    ensures var h := ParseHead(p);
            Item(p, 0).Accept? ==> && ParsePairs(p[h.size..], 1, h.value.n, []).Accept?
                                   && Item(p, 0).value == Dict(ParsePairs(p[h.size..], 1, h.value.n, []).value)
  {
    hide ParseHead, ParseText, ParseItems, ParsePairs;
  }

  /** A text is a head of type 3 and the bytes after it. */
  lemma TextOfHead(p: seq<byte>)
    ensures ParseText(p).Accept? ==>
              && ParseHead(p).Accept? && ParseHead(p).value.t == 3 && ParseHead(p).value.n <= |p| - ParseHead(p).size
              && ParseText(p) == Accept(p[ParseHead(p).size..ParseHead(p).size + ParseHead(p).value.n], ParseHead(p).size + ParseHead(p).value.n)
  {
    hide ParseHead, Utf8.Valid;
  }

  lemma FieldOfItem(p: seq<byte>)
    requires Item(p, 1).Accept?
    ensures var v, h := Item(p, 1).value, ParseHead(p);
            && h.Accept? && (v.Text? <==> h.value.t == 3)
            && (v.Text? ==> h.value.n <= |p| - h.size && v.text == p[h.size..h.size + h.value.n] && |v.text| == h.value.n)
  {
    hide ParseHead, ParseText, ParseItems, ParsePairs;
    TextOfHead(p);
  }
}
