/** Package files: which byte strings are well-formed packages, and the parser that decides it. */
module Package {
  import opened Bytes
  import opened Layout
  import Cbor
  import CborReader

  const PACKAGE_MAX: nat := 33554432
  const IMAGE_MAX: nat := 0x20_0000

  datatype Section = Section(kind: nat, flags: nat, offset: nat, bytes: nat, memory: nat, rva: nat, alignment: nat)

  function Field(d: seq<byte>, at: nat, n: nat): nat
    requires at + n <= |d|
  {
    LeVal(d[at..at + n])
  }

  function SectionAt(d: seq<byte>, at: nat): Section
    requires at + 64 <= |d|
  {
    Section(Field(d, at, 4), Field(d, at + 4, 4), Field(d, at + 8, 8), Field(d, at + 16, 8), Field(d, at + 24, 8), Field(d, at + 32, 8), Field(d, at + 40, 8))
  }

  function PageUp(x: nat): (r: nat)
    ensures x <= r < x + 4096 && r % 4096 == 0
  {
    (x + 4095) / 4096 * 4096
  }

  // ------------------------------------------------------------- sections

  predicate IsMapped(x: Section) { x.kind <= 3 }

  function Rights(kind: nat): nat { if kind == 1 then 5 else if kind == 2 then 1 else 3 }

  /** A mapped section is page aligned, non-empty and inside the image; any other is plain data. */
  predicate SectionOk(x: Section, sig: nat) {
    && x.offset + x.bytes <= sig && 1 <= x.kind <= 5
    && if IsMapped(x) then
         && x.flags == Rights(x.kind) && x.alignment == 4096 && x.rva % 4096 == 0 && x.offset % 4096 == 0
         && 0 < x.memory && x.bytes <= x.memory && x.rva + x.memory <= IMAGE_MAX
       else x.flags == 0 && x.rva == 0 && x.alignment == 8 && x.offset % 8 == 0 && x.bytes == x.memory
  }

  /** Two mapped sections share no page. */
  predicate PagesApart(x: Section, y: Section) {
    x.rva >= PageUp(y.rva + y.memory) || y.rva >= PageUp(x.rva + x.memory)
  }

  predicate HoldsEntry(x: Section, entry: nat) { x.kind == 1 && x.rva <= entry < x.rva + x.bytes }

  function MappedCount(xs: seq<Section>): nat {
    if xs == [] then 0 else MappedCount(xs[..|xs| - 1]) + (if IsMapped(xs[|xs| - 1]) then 1 else 0)
  }

  /** What the loader may rely on. */
  ghost predicate Admitted(xs: seq<Section>, entry: nat, sig: nat) {
    && (forall i :: 0 <= i < |xs| ==> SectionOk(xs[i], sig))
    && (forall i, j :: 0 <= i < j < |xs| && IsMapped(xs[i]) && IsMapped(xs[j]) ==> PagesApart(xs[j], xs[i]))
    && (exists i :: 0 <= i < |xs| && HoldsEntry(xs[i], entry)) && MappedCount(xs) <= 8
  }

  // ----------------------------------------------------------------- files

  const MODULE_MAGIC: seq<byte> := [83, 70, 77, 79, 68, 49, 0, 0]
  const APP_MAGIC: seq<byte> := [83, 70, 75, 49, 13, 10, 26, 10]

  predicate IsModule(d: seq<byte>) { MODULE_MAGIC <= d }

  /** The fixed header, apart from where the parts are. */
  predicate HeaderOk(d: seq<byte>) {
    && 264 <= |d| <= PACKAGE_MAX && (MODULE_MAGIC <= d || APP_MAGIC <= d)
    && Field(d, 8, 2) == 1 && Field(d, 10, 2) == 0 && Field(d, 12, 4) == 96 && Field(d, 16, 8) == |d|
    && Field(d, 24, 2) == (if IsModule(d) then 1 else 2) && Field(d, 26, 2) == 1 && Field(d, 28, 2) == 1 && Field(d, 30, 2) == 0
    && Field(d, 32, 4) == 0 && Field(d, 76, 4) == 0 && AllZero(d[88..96]) && Field(d, 72, 4) == 104
  }

  /** A field has a value exactly when its bytes spell it, least significant first. */
  lemma FieldSpells(d: seq<byte>, at: nat, n: nat, v: nat)
    requires at + n <= |d| && v < Pow256(n)
    ensures Field(d, at, n) == v <==> d[at..at + n] == Le(v, n)
  {
    LeRoundTrip(v, n);
    LeCanonical(d[at..at + n]);
  }

  lemma Spelled(b: byte)
    ensures Le(b, 2) == [b, 0] && Le(b, 4) == [b, 0, 0, 0]
  {
    assert Le(0, 1) == [0];
    assert Le(0, 2) == [0, 0];
    assert Le(0, 3) == [0, 0, 0];
    assert Le(b, 2) == [b] + Le(0, 1);
    assert Le(b, 4) == [b] + Le(0, 3);
  }

  /** The fixed bytes of a header. */
  lemma HeaderBytes(d: seq<byte>)
    requires 264 <= |d| <= PACKAGE_MAX
    ensures HeaderOk(d) <==>
              && (d[..8] == [83, 70, 77, 79, 68, 49, 0, 0] || d[..8] == [83, 70, 75, 49, 13, 10, 26, 10])
              && d[8..10] == [1, 0] && d[10..12] == [0, 0] && d[12..16] == [96, 0, 0, 0] && d[16..24] == Le(|d|, 8)
              && d[24..26] == (if d[2] == 77 then [1, 0] else [2, 0]) && d[26..28] == [1, 0] && d[28..30] == [1, 0] && d[30..32] == [0, 0]
              && d[32..36] == [0, 0, 0, 0] && d[72..76] == [104, 0, 0, 0] && d[76..80] == [0, 0, 0, 0] && AllZero(d[88..96])
  {
    hide Field, Le, Pow256, AllZero;
    Pow256Values();
    Spelled(0);
    Spelled(1);
    Spelled(2);
    Spelled(96);
    Spelled(104);
    FieldSpells(d, 8, 2, 1);
    FieldSpells(d, 10, 2, 0);
    FieldSpells(d, 12, 4, 96);
    FieldSpells(d, 16, 8, |d|);
    FieldSpells(d, 24, 2, if IsModule(d) then 1 else 2);
    FieldSpells(d, 26, 2, 1);
    FieldSpells(d, 28, 2, 1);
    FieldSpells(d, 30, 2, 0);
    FieldSpells(d, 32, 4, 0);
    FieldSpells(d, 72, 4, 104);
    FieldSpells(d, 76, 4, 0);
    assert (MODULE_MAGIC <= d) == (d[..8] == MODULE_MAGIC) && (APP_MAGIC <= d) == (d[..8] == APP_MAGIC);
  }

  datatype Parts = Parts(count: nat, table: nat, manifest: nat, mlen: nat, sig: nat, entry: nat)

  function PartsOf(d: seq<byte>): Parts
    requires |d| >= 96
  {
    Parts(Field(d, 36, 4), Field(d, 40, 8), Field(d, 48, 8), Field(d, 56, 8), Field(d, 64, 8), Field(d, 80, 8))
  }

  predicate PartsOk(p: Parts, n: nat) {
    && 0 < p.count <= 64 && 0 < p.mlen <= 65536
    && p.table + p.count * 64 <= n && p.manifest + p.mlen <= n && p.sig + 104 == n
  }

  /** The section table. */
  function Sections(d: seq<byte>, table: nat, count: nat): (xs: seq<Section>)
    requires table + count * 64 <= |d|
    ensures |xs| == count && forall i :: 0 <= i < count ==> xs[i] == SectionAt(d, table + i * 64)
  {
    if count == 0 then [] else Sections(d, table, count - 1) + [SectionAt(d, table + (count - 1) * 64)]
  }

  /** Every part of the file: header, table, manifest, signature and section contents. */
  function Ranges(p: Parts, xs: seq<Section>): seq<Range> {
    [Range(0, 96), Range(p.table, p.count * 64), Range(p.manifest, p.mlen), Range(p.sig, 104)] + Contents(xs)
  }

  function Contents(xs: seq<Section>): seq<Range> {
    if xs == [] then []
    else
      var x := xs[|xs| - 1];
      Contents(xs[..|xs| - 1]) + (if x.bytes > 0 then [Range(x.offset, x.bytes)] else [])
  }

  predicate PaddingZero(d: seq<byte>, table: nat, count: nat)
    requires table + count * 64 <= |d|
  {
    forall i :: 0 <= i < count ==> AllZero(d[table + i * 64 + 48..table + i * 64 + 64])
  }

  /** A well-formed package file. */
  ghost predicate WellFormed(d: seq<byte>) {
    && HeaderOk(d) && PartsOk(PartsOf(d), |d|)
    && var p := PartsOf(d);
       var xs := Sections(d, p.table, p.count);
       var m := d[p.manifest..p.manifest + p.mlen];
       && PaddingZero(d, p.table, p.count) && Admitted(xs, p.entry, p.sig)
       && Tiles(d, Ranges(p, xs))
       && Cbor.Item(m, 0).Accept? && Cbor.Item(m, 0).value.Dict? && Cbor.Item(m, 0).size == p.mlen
  }

  // ---------------------------------------------------------------- parser

  method CheckHeader(d: seq<byte>) returns (ok: bool)
    ensures ok == HeaderOk(d)
  {
    hide Field;
    if |d| < 264 || |d| > PACKAGE_MAX {
      return false;
    }
    var mod, app := d[..8] == MODULE_MAGIC, d[..8] == APP_MAGIC;
    assert mod == (MODULE_MAGIC <= d) && app == (APP_MAGIC <= d);
    if !mod && !app {
      return false;
    }
    if Field(d, 8, 2) != 1 || Field(d, 10, 2) != 0 || Field(d, 12, 4) != 96 || Field(d, 16, 8) != |d| {
      return false;
    }
    if Field(d, 24, 2) != (if mod then 1 else 2) || Field(d, 26, 2) != 1 || Field(d, 28, 2) != 1 || Field(d, 30, 2) != 0 {
      return false;
    }
    var zero := IsZero(d, 88, 96);
    return Field(d, 32, 4) == 0 && Field(d, 76, 4) == 0 && zero && Field(d, 72, 4) == 104;
  }

  /** The sections so far are fine. */
  ghost predicate Prefix(d: seq<byte>, p: Parts, xs: seq<Section>, n: nat) {
    && PartsOk(p, |d|) && n <= p.count && xs == Sections(d, p.table, n)
    && PaddingZero(d, p.table, n)
    && (forall i :: 0 <= i < n ==> SectionOk(xs[i], p.sig))
    && (forall i, j :: 0 <= i < j < n && IsMapped(xs[i]) && IsMapped(xs[j]) ==> PagesApart(xs[j], xs[i]))
  }

  lemma PrefixGrows(d: seq<byte>, p: Parts, xs: seq<Section>, n: nat, x: Section)
    requires Prefix(d, p, xs, n) && n < p.count && p.table + n * 64 + 64 <= |d|
    requires x == SectionAt(d, p.table + n * 64)
    ensures xs == Sections(d, p.table, n)
    ensures Prefix(d, p, xs + [x], n + 1) <==>
              && AllZero(d[p.table + n * 64 + 48..p.table + n * 64 + 64]) && SectionOk(x, p.sig)
              && (IsMapped(x) ==> forall i :: 0 <= i < n && IsMapped(xs[i]) ==> PagesApart(x, xs[i]))
  {
    hide SectionAt, SectionOk, PagesApart, AllZero, Sections;
    assert Sections(d, p.table, n + 1) == xs + [x] by { SectionsStep(d, p.table, n); }
    var ys := xs + [x];
    if Prefix(d, p, ys, n + 1) {
      assert ys[n] == x;
      forall i | 0 <= i < n && IsMapped(xs[i]) && IsMapped(x)
        ensures PagesApart(x, xs[i])
      {
        assert PagesApart(ys[n], ys[i]);
      }
    }
  }

  lemma SectionsStep(d: seq<byte>, table: nat, n: nat)
    requires table + n * 64 + 64 <= |d|
    ensures Sections(d, table, n + 1) == Sections(d, table, n) + [SectionAt(d, table + n * 64)]
  {
    hide SectionAt;
  }

  /** A failing section spoils every longer prefix. */
  lemma PrefixShrinks(d: seq<byte>, p: Parts, xs: seq<Section>, n: nat, m: nat)
    requires Prefix(d, p, xs, n) && m <= n
    ensures Prefix(d, p, xs[..m], m)
  {
    hide SectionAt, SectionOk, PagesApart, AllZero, Sections;
    assert xs[..m] == Sections(d, p.table, m) by { SectionsTake(d, p.table, n, m); }
  }

  lemma SectionsTake(d: seq<byte>, table: nat, n: nat, m: nat)
    requires table + n * 64 <= |d| && m <= n
    ensures Sections(d, table, n)[..m] == Sections(d, table, m)
  {
    hide SectionAt;
  }

  method ApartFromAll(x: Section, xs: seq<Section>) returns (ok: bool)
    ensures ok <==> forall i :: 0 <= i < |xs| && IsMapped(xs[i]) ==> PagesApart(x, xs[i])
  {
    hide PageUp;
    var end := PageUp(x.rva + x.memory);
    for j := 0 to |xs|
      invariant forall i :: 0 <= i < j && IsMapped(xs[i]) ==> PagesApart(x, xs[i])
    {
      var y := xs[j];
      if IsMapped(y) && x.rva < PageUp(y.rva + y.memory) && y.rva < end {
        return false;
      }
    }
    return true;
  }

  /** The section loop: collects the sections and the file ranges they fill. */
  method ReadSections(d: seq<byte>, p: Parts) returns (ok: bool, xs: seq<Section>, parts: seq<Range>)
    requires PartsOk(p, |d|)
    ensures ok <==> Prefix(d, p, Sections(d, p.table, p.count), p.count) && Admitted(Sections(d, p.table, p.count), p.entry, p.sig)
    ensures ok ==> xs == Sections(d, p.table, p.count) && parts == Ranges(p, xs)
  {
    hide SectionAt, SectionOk, PagesApart, AllZero, Sections, HoldsEntry, IsMapped, Prefix, Contents;
    ghost var all := Sections(d, p.table, p.count);
    xs, parts := [], [Range(0, 96), Range(p.table, p.count * 64), Range(p.manifest, p.mlen), Range(p.sig, 104)];
    ghost var head := parts;
    var entry, mapped := false, 0;
    PrefixStart(d, p);
    for i := 0 to p.count
      invariant |xs| == i && Prefix(d, p, xs, i) && parts == head + Contents(xs)
      invariant entry <==> exists k :: 0 <= k < |xs| && HoldsEntry(xs[k], p.entry)
      invariant mapped == MappedCount(xs)
    {
      SpanInside(p, |d|, i);
      var at := p.table + i * 64;
      var x := SectionAt(d, at);
      var zero := IsZero(d, at + 48, at + 64);
      var apart := true;
      if zero && SectionOk(x, p.sig) && IsMapped(x) {
        apart := ApartFromAll(x, xs);
      }
      PrefixGrows(d, p, xs, i, x);
      ghost var ys := xs + [x];
      if !zero || !SectionOk(x, p.sig) || !apart {
        if Prefix(d, p, all, p.count) {
          PrefixShrinks(d, p, all, p.count, i + 1);
          PrefixIs(d, p, ys, all, i);
        }
        ok := false;
        return;
      }
      Extend(xs, x, p.entry);
      parts := parts + if x.bytes > 0 then [Range(x.offset, x.bytes)] else [];
      entry := entry || HoldsEntry(x, p.entry);
      if IsMapped(x) {
        mapped := mapped + 1;
      }
      xs := xs + [x];
    }
    ok := entry && mapped <= 8;
    PrefixAdmits(d, p, xs);
  }

  lemma PrefixStart(d: seq<byte>, p: Parts)
    requires PartsOk(p, |d|)
    ensures Prefix(d, p, [], 0) && Contents([]) == [] && MappedCount([]) == 0
  {
  }

  lemma SpanInside(p: Parts, n: nat, i: nat)
    requires PartsOk(p, n) && i < p.count
    ensures p.table + i * 64 + 64 <= n
  {
  }

  lemma PrefixIs(d: seq<byte>, p: Parts, ys: seq<Section>, all: seq<Section>, i: nat)
    requires PartsOk(p, |d|) && i < p.count && all == Sections(d, p.table, p.count) && Prefix(d, p, all[..i + 1], i + 1)
    requires |ys| == i + 1 && p.table + i * 64 + 64 <= |d| && ys == Sections(d, p.table, i) + [SectionAt(d, p.table + i * 64)]
    ensures Prefix(d, p, ys, i + 1)
  {
    hide SectionAt, Sections, Prefix;
    SectionsStep(d, p.table, i);
    SectionsTake(d, p.table, p.count, i + 1);
  }

  lemma Extend(xs: seq<Section>, x: Section, entry: nat)
    ensures Contents(xs + [x]) == Contents(xs) + (if x.bytes > 0 then [Range(x.offset, x.bytes)] else [])
    ensures MappedCount(xs + [x]) == MappedCount(xs) + (if IsMapped(x) then 1 else 0)
    ensures (exists k :: 0 <= k < |xs + [x]| && HoldsEntry((xs + [x])[k], entry)) <==>
            (exists k :: 0 <= k < |xs| && HoldsEntry(xs[k], entry)) || HoldsEntry(x, entry)
  {
    hide HoldsEntry, IsMapped;
    var ys := xs + [x];
    assert ys[..|xs|] == xs;
    if exists k :: 0 <= k < |xs| && HoldsEntry(xs[k], entry) {
      var k :| 0 <= k < |xs| && HoldsEntry(xs[k], entry);
      assert HoldsEntry(ys[k], entry);
    }
    if HoldsEntry(x, entry) {
      assert HoldsEntry(ys[|xs|], entry);
    }
  }

  lemma PrefixAdmits(d: seq<byte>, p: Parts, xs: seq<Section>)
    requires Prefix(d, p, xs, p.count)
    ensures xs == Sections(d, p.table, p.count) && |xs| == p.count
    ensures Admitted(xs, p.entry, p.sig) <==> (exists k :: 0 <= k < |xs| && HoldsEntry(xs[k], p.entry)) && MappedCount(xs) <= 8
  {
    hide SectionOk, PagesApart, HoldsEntry, IsMapped, MappedCount;
  }

  lemma {:induction false} ContentsInside(xs: seq<Section>, sig: nat)
    requires forall i :: 0 <= i < |xs| ==> SectionOk(xs[i], sig)
    ensures Inside(Contents(xs), sig)
  {
    if xs != [] {
      ContentsInside(xs[..|xs| - 1], sig);
    }
  }

  lemma RangesInside(p: Parts, xs: seq<Section>, n: nat)
    requires PartsOk(p, n) && n >= 96 && Admitted(xs, p.entry, p.sig)
    ensures Inside(Ranges(p, xs), n) && Ranges(p, xs) != []
  {
    hide SectionOk, PagesApart, HoldsEntry, MappedCount;
    ContentsInside(xs, p.sig);
    var rs := Ranges(p, xs);
    forall i | 0 <= i < |rs|
      ensures 0 < rs[i].len && rs[i].start + rs[i].len <= n
    {
      if i >= 4 {
        assert rs[i] == Contents(xs)[i - 4];
      }
    }
  }

  /** Decides well-formedness; everything checked here is checked before the manifest's fields and the signature. */
  method OpenPackage(d: seq<byte>) returns (ok: bool, p: Parts, xs: seq<Section>)
    ensures ok <==> WellFormed(d)
    ensures ok ==> p == PartsOf(d) && xs == Sections(d, p.table, p.count)
  {
    hide HeaderOk, Field, Admitted, Tiles, Ranges, Sections, Cbor.Item, PaddingZero;
    p, xs := Parts(0, 0, 0, 0, 0, 0), [];
    ok := CheckHeader(d);
    if !ok {
      return;
    }
    HeaderSize(d);
    p := PartsOf(d);
    if !PartsOk(p, |d|) {
      ok := false;
      return;
    }
    var parts;
    ok, xs, parts := ReadSections(d, p);
    PrefixPadding(d, p);
    if !ok {
      return;
    }
    RangesInside(p, xs, |d|);
    ok := CheckParts(d, parts);
    if !ok {
      return;
    }
    var m := d[p.manifest..p.manifest + p.mlen];
    var j;
    var top := m[0] / 32 == 5;
    DictHead(m);
    ok, j := CborReader.ReadItem(m, 0, 0);
    assert m[0..] == m;
    ok := ok && top && j == |m|;
  }

  lemma HeaderSize(d: seq<byte>)
    requires HeaderOk(d)
    ensures |d| >= 264
  {
  }

  lemma PrefixPadding(d: seq<byte>, p: Parts)
    requires PartsOk(p, |d|)
    ensures var xs := Sections(d, p.table, p.count);
            Admitted(xs, p.entry, p.sig) ==> (Prefix(d, p, xs, p.count) <==> PaddingZero(d, p.table, p.count))
  {
    hide SectionOk, PagesApart, HoldsEntry, IsMapped, MappedCount, Sections;
  }

  /** The leading type bits say whether an accepted item is a dictionary. */
  lemma DictHead(m: seq<byte>)
    requires m != []
    ensures Cbor.Item(m, 0).Accept? ==> (Cbor.Item(m, 0).value.Dict? <==> m[0] / 32 == 5)
  {
    hide Cbor.BeVal, Cbor.ParseText, Cbor.ParseItems, Cbor.ParsePairs;
  }

  method CheckParts(d: seq<byte>, parts: seq<Range>) returns (ok: bool)
    requires parts != [] && Inside(parts, |d|)
    ensures ok == Tiles(d, parts)
  {
    hide Tiles;
    var starts := new nat[|parts|](i requires 0 <= i < |parts| => parts[i].start);
    var lens := new nat[|parts|](i requires 0 <= i < |parts| => parts[i].len);
    assert Pairs(starts[..], lens[..]) == parts;
    ok := CheckLayout(d, starts, lens);
  }
}
