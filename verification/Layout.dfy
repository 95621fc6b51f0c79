/** The file-layout check: parts are disjoint and everything between them is zero. */
module Layout {
  import opened Bytes

  datatype Range = Range(start: nat, len: nat)

  predicate Contains(r: Range, k: nat) { r.start <= k < r.start + r.len }

  /** How many parts hold byte `k`. */
  function Cover(rs: seq<Range>, k: nat): nat {
    if rs == [] then 0 else Cover(rs[..|rs| - 1], k) + (if Contains(rs[|rs| - 1], k) then 1 else 0)
  }

  predicate Inside(rs: seq<Range>, n: nat) { forall i :: 0 <= i < |rs| ==> 0 < rs[i].len && rs[i].start + rs[i].len <= n }

  /** No byte is in two parts, bytes in no part are zero, and some part ends the file. */
  ghost predicate Tiles(d: seq<byte>, rs: seq<Range>) {
    && (forall k :: 0 <= k < |d| ==> Cover(rs, k) <= 1 && (Cover(rs, k) == 0 ==> d[k] == 0))
    && (exists i :: 0 <= i < |rs| && rs[i].start + rs[i].len == |d|)
  }

  // ---------------------------------------------------- order does not matter

  lemma {:induction false} CoverSplit(rs: seq<Range>, i: nat, k: nat)
    requires i < |rs|
    ensures Cover(rs, k) == Cover(rs[..i] + rs[i + 1..], k) + (if Contains(rs[i], k) then 1 else 0)
  {
    var n := |rs| - 1;
    if i == n {
      assert rs[..i] + rs[i + 1..] == rs[..n];
    } else {
      CoverSplit(rs[..n], i, k);
      var without := rs[..i] + rs[i + 1..];
      assert without[..|without| - 1] == rs[..n][..i] + rs[..n][i + 1..];
      assert without[|without| - 1] == rs[n];
    }
  }

  lemma Cancel(a: multiset<Range>, b: multiset<Range>, x: Range)
    requires a + multiset{x} == b + multiset{x}
    ensures a == b
  {
    assert a == (a + multiset{x}) - multiset{x};
    assert b == (b + multiset{x}) - multiset{x};
  }

  lemma {:induction false} CoverPermuted(a: seq<Range>, b: seq<Range>, k: nat)
    requires multiset(a) == multiset(b)
    ensures Cover(a, k) == Cover(b, k)
    decreases |a|
  {
    if a == [] {
      assert |multiset(b)| == 0;
    } else {
      var n := |a| - 1;
      var x := a[n];
      assert a == a[..n] + [x];
      assert x in multiset(b);
      var i :| 0 <= i < |b| && b[i] == x;
      assert b == b[..i] + [x] + b[i + 1..];
      var c := b[..i] + b[i + 1..];
      assert multiset(a) == multiset(a[..n]) + multiset{x};
      assert multiset(b) == multiset(c) + multiset{x};
      Cancel(multiset(a[..n]), multiset(c), x);
      CoverPermuted(a[..n], c, k);
      CoverSplit(b, i, k);
    }
  }

  predicate Sorted(rs: seq<Range>) { forall i, j :: 0 <= i < j < |rs| ==> rs[i].start <= rs[j].start }

  // ------------------------------------------------------------- the scan

  function EndBefore(rs: seq<Range>, i: nat): nat
    requires i <= |rs|
  {
    if i == 0 then 0 else rs[i - 1].start + rs[i - 1].len
  }

  /** Each part starts at or after the previous end, across zeros. */
  predicate Steps(d: seq<byte>, rs: seq<Range>, i: nat)
    requires i < |rs|
  {
    EndBefore(rs, i) <= rs[i].start <= |d| && AllZero(d[EndBefore(rs, i)..rs[i].start])
  }

  predicate Scans(d: seq<byte>, rs: seq<Range>) {
    (forall i :: 0 <= i < |rs| ==> Steps(d, rs, i)) && EndBefore(rs, |rs|) == |d|
  }

  /** Before the end of the first `i` parts, each byte is in at most one, and is zero in none; after it, in none. */
  lemma {:induction false} ScanCovers(d: seq<byte>, rs: seq<Range>, i: nat, k: nat)
    requires Inside(rs, |d|) && i <= |rs| && forall j :: 0 <= j < i ==> Steps(d, rs, j)
    ensures k >= EndBefore(rs, i) ==> Cover(rs[..i], k) == 0
    ensures k < EndBefore(rs, i) ==> k < |d| && Cover(rs[..i], k) <= 1 && (Cover(rs[..i], k) == 0 ==> d[k] == 0)
  {
    if i > 0 {
      ScanCovers(d, rs, i - 1, k);
      assert rs[..i][..i - 1] == rs[..i - 1];
      assert Steps(d, rs, i - 1);
      var e, s := EndBefore(rs, i - 1), rs[i - 1].start;
      if e <= k < s {
        assert d[e..s][k - e] == d[k];
      }
    }
  }

  /** If a byte is in two of the first `i` parts the count says so. */
  lemma {:induction false} CoverAtLeast(rs: seq<Range>, i: nat, k: nat)
    requires i < |rs| && Contains(rs[i], k)
    ensures Cover(rs, k) >= 1
    ensures forall j :: 0 <= j < |rs| && j != i && Contains(rs[j], k) ==> Cover(rs, k) >= 2
  {
    CoverSplit(rs, i, k);
    var c := rs[..i] + rs[i + 1..];
    forall j | 0 <= j < |rs| && j != i && Contains(rs[j], k)
      ensures Cover(rs, k) >= 2
    {
      var m := if j < i then j else j - 1;
      assert c[m] == rs[j];
      CoverSplit(c, m, k);
    }
  }

  lemma {:induction false} CoverNone(rs: seq<Range>, k: nat)
    requires forall j :: 0 <= j < |rs| ==> !Contains(rs[j], k)
    ensures Cover(rs, k) == 0
  {
    if rs != [] {
      CoverNone(rs[..|rs| - 1], k);
    }
  }

  /** In start order the simple scan accepts exactly the tilings. */
  lemma ScanIsTiling(d: seq<byte>, rs: seq<Range>)
    requires Sorted(rs) && Inside(rs, |d|) && rs != []
    ensures Scans(d, rs) <==> Tiles(d, rs)
  {
    hide Cover, Sorted;
    if Scans(d, rs) {
      assert rs[..|rs|] == rs;
      forall k | 0 <= k < |d|
        ensures Cover(rs, k) <= 1 && (Cover(rs, k) == 0 ==> d[k] == 0)
      {
        ScanCovers(d, rs, |rs|, k);
      }
      assert rs[|rs| - 1].start + rs[|rs| - 1].len == |d|;
    }
    if Tiles(d, rs) {
      forall i | 0 <= i < |rs|
        ensures Steps(d, rs, i)
      {
        TilingSteps(d, rs, i);
      }
      TilingEnds(d, rs);
    }
  }

  lemma TilingSteps(d: seq<byte>, rs: seq<Range>, i: nat)
    requires Sorted(rs) && Inside(rs, |d|) && Tiles(d, rs) && i < |rs|
    ensures Steps(d, rs, i)
  {
    hide Cover;
    var e, s := EndBefore(rs, i), rs[i].start;
    if e > s {
      TwoMeet(rs, i - 1, i);
      assert false;
    } else {
      forall k | e <= k < s
        ensures d[k] == 0
      {
        forall j | 0 <= j < |rs|
          ensures !Contains(rs[j], k)
        {
          if j < i - 1 {
            Apart(d, rs, j, i - 1);
          }
        }
        CoverNone(rs, k);
      }
    }
  }

  /** Two parts of a tiling in start order do not overlap. */
  lemma Apart(d: seq<byte>, rs: seq<Range>, i: nat, j: nat)
    requires Sorted(rs) && Inside(rs, |d|) && Tiles(d, rs) && i < j < |rs|
    ensures rs[i].start + rs[i].len <= rs[j].start
  {
    hide Cover;
    if rs[i].start + rs[i].len > rs[j].start {
      assert Contains(rs[j], rs[j].start);
      CoverAtLeast(rs, i, rs[j].start);
    }
  }

  /** Consecutive overlapping parts share a byte. */
  lemma TwoMeet(rs: seq<Range>, i: nat, j: nat)
    requires i < j < |rs| && 0 < rs[j].len && 0 < rs[i].len && rs[i].start <= rs[j].start < rs[i].start + rs[i].len
    ensures Cover(rs, rs[j].start) >= 2
  {
    hide Cover;
    CoverAtLeast(rs, i, rs[j].start);
    assert Contains(rs[j], rs[j].start);
  }

  lemma TilingEnds(d: seq<byte>, rs: seq<Range>)
    requires Sorted(rs) && Inside(rs, |d|) && Tiles(d, rs) && rs != []
    ensures EndBefore(rs, |rs|) == |d|
  {
    hide Cover;
    var i :| 0 <= i < |rs| && rs[i].start + rs[i].len == |d|;
    if i < |rs| - 1 {
      Apart(d, rs, i, |rs| - 1);
    }
  }

  // --------------------------------------------------------- the exchange sort

  function Pairs(starts: seq<nat>, lens: seq<nat>): (rs: seq<Range>)
    requires |starts| == |lens|
    ensures |rs| == |starts| && forall i :: 0 <= i < |rs| ==> rs[i] == Range(starts[i], lens[i])
  {
    seq(|starts|, i requires 0 <= i < |starts| => Range(starts[i], lens[i]))
  }

  lemma SwapPermutes(s: seq<Range>, t: seq<Range>, i: nat, j: nat)
    requires i < j < |s| == |t| && t == s[i := s[j]][j := s[i]]
    ensures multiset(t) == multiset(s)
  {
    assert s == s[..i] + [s[i]] + s[i + 1..j] + [s[j]] + s[j + 1..];
    assert t == s[..i] + [s[j]] + s[i + 1..j] + [s[i]] + s[j + 1..];
  }

  /** The first `i` starts are in order and below all later ones. */
  ghost predicate Front(starts: seq<nat>, i: nat) {
    forall a, b :: 0 <= a < b < |starts| && a < i ==> starts[a] <= starts[b]
  }

  /** The parallel arrays in start order, each start still with its length. */
  method SortRanges(starts: array<nat>, lens: array<nat>)
    requires starts != lens && starts.Length == lens.Length
    modifies starts, lens
    ensures Sorted(Pairs(starts[..], lens[..])) && multiset(Pairs(starts[..], lens[..])) == multiset(old(Pairs(starts[..], lens[..])))
  {
    hide Front, Sorted;
    var n := starts.Length;
    ghost var was := Pairs(starts[..], lens[..]);
    FrontStarts(starts[..]);
    for i := 0 to n
      invariant multiset(Pairs(starts[..], lens[..])) == multiset(was) && Front(starts[..], i)
    {
      Settle(starts, lens, i);
    }
    FrontSorts(starts[..], lens[..]);
  }

  lemma FrontStarts(starts: seq<nat>)
    ensures Front(starts, 0)
  {
  }

  lemma FrontSorts(starts: seq<nat>, lens: seq<nat>)
    requires |starts| == |lens| && Front(starts, |starts|)
    ensures Sorted(Pairs(starts, lens))
  {
  }

  /** Brings the least remaining start to position `i` by exchanges. */
  method Settle(starts: array<nat>, lens: array<nat>, i: nat)
    requires starts != lens && starts.Length == lens.Length && i < starts.Length && Front(starts[..], i)
    modifies starts, lens
    ensures multiset(Pairs(starts[..], lens[..])) == multiset(old(Pairs(starts[..], lens[..]))) && Front(starts[..], i + 1)
  {
    hide Pairs, Front;
    ghost var was := Pairs(starts[..], lens[..]);
    for j := i + 1 to starts.Length
      invariant multiset(Pairs(starts[..], lens[..])) == multiset(was) && Front(starts[..], i)
      invariant forall b :: i < b < j ==> starts[i] <= starts[b]
    {
      if starts[j] < starts[i] {
        FrontSwap(starts[..], i, j);
        Exchange(starts, lens, i, j);
      }
    }
    FrontGrows(starts[..], i);
  }

  lemma FrontSwap(starts: seq<nat>, i: nat, j: nat)
    requires i < j < |starts| && Front(starts, i)
    ensures Front(starts[i := starts[j]][j := starts[i]], i)
  {
  }

  lemma FrontGrows(starts: seq<nat>, i: nat)
    requires i < |starts| && Front(starts, i) && forall b :: i < b < |starts| ==> starts[i] <= starts[b]
    ensures Front(starts, i + 1)
  {
  }

  method Exchange(starts: array<nat>, lens: array<nat>, i: nat, j: nat)
    requires starts != lens && starts.Length == lens.Length && i < j < starts.Length
    modifies starts, lens
    ensures starts[..] == old(starts[..])[i := old(starts[j])][j := old(starts[i])]
    ensures multiset(Pairs(starts[..], lens[..])) == multiset(old(Pairs(starts[..], lens[..])))
  {
    ghost var was := Pairs(starts[..], lens[..]);
    starts[i], starts[j] := starts[j], starts[i];
    lens[i], lens[j] := lens[j], lens[i];
    ghost var now := Pairs(starts[..], lens[..]);
    assert now == was[i := was[j]][j := was[i]];
    SwapPermutes(was, now, i, j);
  }

  method IsZero(d: seq<byte>, from: nat, to: nat) returns (r: bool)
    requires from <= to <= |d|
    ensures r == AllZero(d[from..to])
  {
    for k := from to to
      invariant AllZero(d[from..k])
    {
      if d[k] != 0 {
        assert d[from..to][k - from] == d[k];
        return false;
      }
      assert d[from..k + 1] == d[from..k] + [d[k]];
    }
    return true;
  }

  /** Sort, then walk: accepts exactly the layouts that tile the file. */
  method CheckLayout(d: seq<byte>, starts: array<nat>, lens: array<nat>) returns (ok: bool)
    requires starts != lens && starts.Length == lens.Length > 0 && Inside(Pairs(starts[..], lens[..]), |d|)
    modifies starts, lens
    ensures ok == Tiles(d, old(Pairs(starts[..], lens[..])))
  {
    hide Tiles, Cover, Sorted;
    ghost var was := Pairs(starts[..], lens[..]);
    SortRanges(starts, lens);
    ghost var rs := Pairs(starts[..], lens[..]);
    InsidePermuted(was, rs, |d|);
    ScanIsTiling(d, rs);
    TilesPermuted(d, rs, was);
    var end := 0;
    for i := 0 to starts.Length
      modifies {}
      invariant end == EndBefore(rs, i) <= |d| && forall k :: 0 <= k < i ==> Steps(d, rs, k)
    {
      assert rs[i] == Range(starts[i], lens[i]);
      if starts[i] < end {
        assert !Steps(d, rs, i);
        return false;
      }
      var zero := IsZero(d, end, starts[i]);
      if !zero {
        assert !Steps(d, rs, i);
        return false;
      }
      end := starts[i] + lens[i];
    }
    return end == |d|;
  }

  lemma InsidePermuted(a: seq<Range>, b: seq<Range>, n: nat)
    requires Inside(a, n) && multiset(a) == multiset(b)
    ensures Inside(b, n) && |a| == |b|
  {
    assert |multiset(a)| == |a| && |multiset(b)| == |b|;
    forall i | 0 <= i < |b|
      ensures 0 < b[i].len && b[i].start + b[i].len <= n
    {
      assert b[i] in multiset(b);
      assert b[i] in a;
    }
  }

  lemma TilesPermuted(d: seq<byte>, a: seq<Range>, b: seq<Range>)
    requires multiset(a) == multiset(b)
    ensures Tiles(d, a) <==> Tiles(d, b)
  {
    hide Cover;
    TilesOneWay(d, a, b);
    TilesOneWay(d, b, a);
  }

  lemma TilesOneWay(d: seq<byte>, a: seq<Range>, b: seq<Range>)
    requires multiset(a) == multiset(b)
    ensures Tiles(d, a) ==> Tiles(d, b)
  {
    hide Cover;
    if Tiles(d, a) {
      forall k | 0 <= k < |d|
        ensures Cover(b, k) <= 1 && (Cover(b, k) == 0 ==> d[k] == 0)
      {
        CoverPermuted(a, b, k);
      }
      var i :| 0 <= i < |a| && a[i].start + a[i].len == |d|;
      assert a[i] in multiset(a);
      assert a[i] in b;
      var j :| 0 <= j < |b| && b[j] == a[i];
      assert b[j].start + b[j].len == |d|;
    }
  }
}
