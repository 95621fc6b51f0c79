/** Loading a native package: the staged image, its relocations, and the plan handed to the kernel. */
module NativeImage {
  import opened Bytes
  import opened Package
  import Layout
  import Cbor

  const BASE: nat := 0x4000_0000
  const PIE_MIN: nat := 0x4400_0000
  const DMA: nat := 0x5000_0000
  const RELOCATION_MAX: nat := 256
  const SEGMENTS := 8

  datatype Native = Native(data: seq<byte>, sections: seq<Section>, entry: nat, kind: nat, profile: nat, relocs: nat, count: nat)

  // ----------------------------------------------------------- relocations

  function Target(p: Native, i: nat): nat
    requires p.relocs + 16 * i + 16 <= |p.data|
  {
    Field(p.data, p.relocs + 16 * i, 8)
  }

  function Addend(p: Native, i: nat): nat
    requires p.relocs + 16 * i + 16 <= |p.data|
  {
    Field(p.data, p.relocs + 16 * i + 8, 8)
  }

  predicate SlotIn(x: Section, target: nat) { x.kind == 3 && x.rva <= target && target + 8 <= x.rva + x.memory }
  predicate ValueIn(x: Section, addend: nat) { IsMapped(x) && x.rva <= addend < x.rva + x.memory }

  /** A slot is an aligned word of a data section above the previous one; its value points into the image. */
  ghost predicate RelocOk(p: Native, i: nat)
    requires p.relocs + 16 * i + 16 <= |p.data|
  {
    && Target(p, i) % 8 == 0 && (i > 0 ==> Target(p, i - 1) < Target(p, i)) && Addend(p, i) < IMAGE_MAX
    && (exists j :: 0 <= j < |p.sections| && SlotIn(p.sections[j], Target(p, i)))
    && (exists j :: 0 <= j < |p.sections| && ValueIn(p.sections[j], Addend(p, i)))
  }

  ghost predicate RelocsOk(p: Native) {
    && |p.sections| <= 64 && p.profile <= 1 && p.count <= RELOCATION_MAX
    && if p.profile == 0 then p.count == 0 && p.relocs == 0
       else p.kind == 2 && p.relocs + 16 * p.count <= |p.data| && forall i :: 0 <= i < p.count ==> RelocOk(p, i)
  }

  method ValidateRelocations(p: Native) returns (ok: bool)
    ensures ok == RelocsOk(p)
  {
    hide Field, Target, Addend, SlotIn, ValueIn;
    if |p.sections| > 64 || p.profile > 1 || p.count > RELOCATION_MAX {
      return false;
    }
    if p.profile == 0 {
      return p.count == 0 && p.relocs == 0;
    }
    if p.kind != 2 || p.relocs + 16 * p.count > |p.data| {
      return false;
    }
    var previous := 0;
    for i := 0 to p.count
      invariant forall k :: 0 <= k < i ==> RelocOk(p, k)
      invariant i > 0 ==> previous == Target(p, i - 1)
    {
      var target, addend := Target(p, i), Addend(p, i);
      var write, value := false, false;
      for j := 0 to |p.sections|
        invariant write <==> exists k :: 0 <= k < j && SlotIn(p.sections[k], target)
        invariant value <==> exists k :: 0 <= k < j && ValueIn(p.sections[k], addend)
      {
        if SlotIn(p.sections[j], target) {
          write := true;
        }
        if ValueIn(p.sections[j], addend) {
          value := true;
        }
      }
      if target % 8 != 0 || (i > 0 && target <= previous) || addend >= IMAGE_MAX || !write || !value {
        assert !RelocOk(p, i);
        return false;
      }
      previous := target;
    }
    return true;
  }

  // ----------------------------------------------------------------- plans

  datatype Segment = Segment(rva: nat, bytes: nat, at: nat, flags: nat)

  predicate BaseValid(base: nat) {
    base == 0 || base == BASE || (PIE_MIN <= base <= DMA - IMAGE_MAX && base % IMAGE_MAX == 0)
  }

  predicate SegmentOk(s: Segment) {
    s.rva % 4096 == 0 && 0 < s.bytes && s.rva < IMAGE_MAX && s.rva + s.bytes <= IMAGE_MAX && s.flags in {1, 3, 5}
  }

  predicate Overlap(s: Segment, t: Segment) { s.rva < PageUp(t.rva + t.bytes) && t.rva < PageUp(s.rva + s.bytes) }

  /** What the kernel demands of the segments, entry and base of a plan. */
  ghost predicate ValidPlan(segs: seq<Segment>, entry: nat, base: nat) {
    && 0 < |segs| <= SEGMENTS && BaseValid(base)
    && (forall i :: 0 <= i < |segs| ==> SegmentOk(segs[i]))
    && (forall i, j :: 0 <= j < i < |segs| ==> !Overlap(segs[i], segs[j]))
    && exists i :: 0 <= i < |segs| && Enters(segs[i], entry)
  }

  predicate Enters(s: Segment, entry: nat) { s.flags == 5 && s.rva <= entry < s.rva + s.bytes }

  /** The kernel's check. */
  method CheckPlan(segs: seq<Segment>, entry: nat, base: nat) returns (ok: bool)
    ensures ok == ValidPlan(segs, entry, base)
  {
    hide BaseValid, SegmentOk, Overlap, Enters;
    if |segs| == 0 || |segs| > SEGMENTS || !BaseValid(base) {
      return false;
    }
    var entered := false;
    for i := 0 to |segs|
      invariant forall k :: 0 <= k < i ==> SegmentOk(segs[k])
      invariant forall k, j :: 0 <= j < k < i ==> !Overlap(segs[k], segs[j])
      invariant entered <==> exists k :: 0 <= k < i && Enters(segs[k], entry)
    {
      if !SegmentOk(segs[i]) {
        return false;
      }
      for j := 0 to i
        invariant forall k :: 0 <= k < j ==> !Overlap(segs[i], segs[k])
      {
        if Overlap(segs[i], segs[j]) {
          return false;
        }
      }
      if Enters(segs[i], entry) {
        entered := true;
      }
    }
    return entered;
  }

  // ----------------------------------------------------------------- image

  function Front<T>(s: seq<T>): seq<T>
    requires s != []
  {
    s[..|s| - 1]
  }

  function Last<T>(s: seq<T>): T
    requires s != []
  {
    s[|s| - 1]
  }

  /** Staging bytes taken by the mapped sections. */
  function Used(xs: seq<Section>): nat {
    if xs == [] then 0 else Used(Front(xs)) + (if IsMapped(Last(xs)) then PageUp(Last(xs).memory) else 0)
  }

  function Segments(xs: seq<Section>): seq<Segment> {
    if xs == [] then []
    else
      var x := Last(xs);
      Segments(Front(xs)) + (if IsMapped(x) then [Segment(x.rva, x.memory, Used(Front(xs)), x.flags)] else [])
  }

  predicate FileOk(d: seq<byte>, x: Section) {
    IsMapped(x) ==> 0 < x.memory <= IMAGE_MAX && x.bytes <= x.memory && x.offset + x.bytes <= |d|
  }

  predicate FilesOk(d: seq<byte>, xs: seq<Section>) { forall i :: 0 <= i < |xs| ==> FileOk(d, xs[i]) }

  /** File bytes followed by zeros up to a whole page. */
  function Padded(d: seq<byte>, x: Section): (s: seq<byte>)
    requires IsMapped(x) && FileOk(d, x)
    ensures |s| == PageUp(x.memory)
  {
    d[x.offset..x.offset + x.bytes] + Zeros(PageUp(x.memory) - x.bytes)
  }

  function Image(d: seq<byte>, xs: seq<Section>): (s: seq<byte>)
    requires FilesOk(d, xs)
    ensures |s| == Used(xs)
  {
    if xs == [] then [] else Image(d, Front(xs)) + (if IsMapped(Last(xs)) then Padded(d, Last(xs)) else [])
  }

  predicate Fits(s: Segment, target: nat) { s.flags == 3 && s.rva <= target && target + 8 <= s.rva + s.bytes }

  /** The first segment that holds the slot, or -1. */
  function Holder(segs: seq<Segment>, target: nat, j: nat): (r: int)
    requires j <= |segs|
    ensures r == -1 || (j <= r < |segs| && Fits(segs[r], target))
    ensures r == -1 ==> forall k :: j <= k < |segs| ==> !Fits(segs[k], target)
    decreases |segs| - j
  {
    if j == |segs| then -1 else if Fits(segs[j], target) then j else Holder(segs, target, j + 1)
  }

  function Patch(img: seq<byte>, at: nat, v: nat): (r: seq<byte>)
    requires at + 8 <= |img|
    ensures |r| == |img|
    ensures forall i :: 0 <= i < |r| ==> r[i] == if at <= i < at + 8 then Le(v, 8)[i - at] else img[i]
  {
    img[..at] + Le(v, 8) + img[at + 8..]
  }

  /** Every segment lies in the staged bytes. */
  predicate Staged(segs: seq<Segment>, n: nat) { forall j :: 0 <= j < |segs| ==> segs[j].at + segs[j].bytes <= n }

  function Relocated(img: seq<byte>, segs: seq<Segment>, p: Native, base: nat, n: nat): (r: seq<byte>)
    requires p.relocs + 16 * n <= |p.data| && Staged(segs, |img|)
    ensures |r| == |img|
  {
    if n == 0 then img
    else
      var before := Relocated(img, segs, p, base, n - 1);
      var j := Holder(segs, Target(p, n - 1), 0);
      if j < 0 then before else Patch(before, segs[j].at + Target(p, n - 1) - segs[j].rva, base + Addend(p, n - 1))
  }

  lemma {:induction false} SegmentsStaged(xs: seq<Section>)
    ensures Staged(Segments(xs), Used(xs))
    ensures forall j :: 0 <= j < |Segments(xs)| ==> Segments(xs)[j].at + PageUp(Segments(xs)[j].bytes) <= Used(xs)
    ensures forall i, j :: 0 <= i < j < |Segments(xs)| ==> Segments(xs)[i].at + PageUp(Segments(xs)[i].bytes) <= Segments(xs)[j].at
  {
    hide PageUp, IsMapped;
    if xs != [] {
      SegmentsStaged(Front(xs));
    }
  }

  /** Segment `j` of the plan is section `i`: its address, size and rights, and the place of its bytes. */
  ghost predicate Stages(xs: seq<Section>, i: nat, j: nat) {
    && i < |xs| && xs[i].kind <= 3 && j < |Segments(xs)|
    && Segments(xs)[j] == Segment(xs[i].rva, xs[i].memory, Place(xs, i), xs[i].flags)
  }

  ghost predicate Backed(xs: seq<Section>, j: nat) {
    exists i: nat :: Stages(xs, i, j)
  }

  /** The plan has a segment for each mapped section, and no other. */
  lemma SegmentsExact(xs: seq<Section>)
    ensures forall i: nat :: i < |xs| && xs[i].kind <= 3 ==> exists j: nat :: Stages(xs, i, j)
    ensures forall j: nat :: j < |Segments(xs)| ==> Backed(xs, j)
    ensures |Segments(xs)| == MappedCount(xs)
  {
    hide Segments, Place, MappedCount;
    SegmentCount(xs);
    forall i: nat | i < |xs| && xs[i].kind <= 3
      ensures exists j: nat :: Stages(xs, i, j)
    {
      var j := SegmentFor(xs, i);
      assert Stages(xs, i, j);
    }
    forall j: nat | j < |Segments(xs)|
      ensures Backed(xs, j)
    {
      assert Stages(xs, SourceOf(xs, j), j);
    }
  }

  // --------------------------------------------- sections behind segments

  /** Where the staged bytes of section `i` begin. */
  function Place(xs: seq<Section>, i: nat): nat
    requires i <= |xs|
  {
    Used(xs[..i])
  }

  /** The section that segment `j` was made from. */
  function SourceOf(xs: seq<Section>, j: nat): (i: nat)
    requires j < |Segments(xs)|
    ensures i < |xs| && IsMapped(xs[i]) && Segments(xs)[j] == Segment(xs[i].rva, xs[i].memory, Place(xs, i), xs[i].flags)
  {
    var f := Front(xs);
    assert xs[..|xs| - 1] == f;
    if j == |Segments(f)| then |xs| - 1
    else
      var i := SourceOf(f, j);
      assert f[..i] == xs[..i];
      i
  }

  lemma {:induction false} SourcesIncrease(xs: seq<Section>, i: nat, j: nat)
    requires i < j < |Segments(xs)|
    ensures SourceOf(xs, i) < SourceOf(xs, j)
  {
    var f := Front(xs);
    if j < |Segments(f)| {
      SourcesIncrease(f, i, j);
    }
  }

  lemma {:induction false} SegmentFor(xs: seq<Section>, i: nat) returns (j: nat)
    requires i < |xs| && IsMapped(xs[i])
    ensures j < |Segments(xs)| && Segments(xs)[j] == Segment(xs[i].rva, xs[i].memory, Place(xs, i), xs[i].flags)
  {
    hide PageUp, IsMapped;
    var f := Front(xs);
    if i == |xs| - 1 {
      j := |Segments(f)|;
    } else {
      j := SegmentFor(f, i);
      assert f[..i] == xs[..i];
    }
  }

  lemma {:induction false} SegmentCount(xs: seq<Section>)
    ensures |Segments(xs)| == MappedCount(xs)
  {
    hide PageUp, IsMapped;
    if xs != [] {
      SegmentCount(Front(xs));
    }
  }

  /** A well-formed package always makes a plan the kernel accepts. */
  lemma PlanIsValid(xs: seq<Section>, entry: nat, sig: nat, base: nat)
    requires Admitted(xs, entry, sig) && BaseValid(base)
    ensures ValidPlan(Segments(xs), entry, base)
  {
    hide BaseValid, PageUp, Segments, MappedCount, SourceOf;
    var segs := Segments(xs);
    SegmentCount(xs);
    forall j | 0 <= j < |segs|
      ensures SegmentOk(segs[j])
    {
      assert SectionOk(xs[SourceOf(xs, j)], sig);
    }
    forall i, j | 0 <= j < i < |segs|
      ensures !Overlap(segs[i], segs[j])
    {
      SourcesIncrease(xs, j, i);
      assert PagesApart(xs[SourceOf(xs, i)], xs[SourceOf(xs, j)]);
    }
    var k :| 0 <= k < |xs| && HoldsEntry(xs[k], entry);
    assert SectionOk(xs[k], sig);
    var j := SegmentFor(xs, k);
    assert Enters(segs[j], entry);
  }

  // ------------------------------------------------------------ the bytes

  lemma {:induction false} ImagePrefix(d: seq<byte>, xs: seq<Section>, i: nat)
    requires FilesOk(d, xs) && i <= |xs|
    ensures Image(d, xs[..i]) <= Image(d, xs)
    decreases |xs| - i
  {
    hide Image, Padded, IsMapped, PageUp, FileOk;
    if i < |xs| {
      ImageStep(d, xs, i);
      ImagePrefix(d, xs, i + 1);
    } else {
      assert xs[..i] == xs;
    }
  }

  lemma ImageByte(d: seq<byte>, xs: seq<Section>, i: nat, o: nat)
    requires FilesOk(d, xs) && i < |xs| && IsMapped(xs[i]) && o < PageUp(xs[i].memory)
    ensures FileOk(d, xs[i]) && Place(xs, i) + o < Used(xs)
    ensures Image(d, xs)[Place(xs, i) + o] == if o < xs[i].bytes then d[xs[i].offset + o] else 0
  {
    hide Image, IsMapped, PageUp, Used;
    ImageStep(d, xs, i);
    ImagePrefix(d, xs, i + 1);
    var part := Image(d, xs[..i + 1]);
    assert |Image(d, xs[..i])| == Place(xs, i);
    assert part[Place(xs, i) + o] == Padded(d, xs[i])[o];
  }

  lemma {:induction false} PlacesApart(xs: seq<Section>, i: nat, j: nat)
    requires i < j < |xs| && IsMapped(xs[i])
    ensures Place(xs, i) + PageUp(xs[i].memory) <= Place(xs, j)
    decreases j
  {
    hide PageUp, IsMapped;
    assert xs[..j][..j - 1] == xs[..j - 1];
    if i < j - 1 {
      PlacesApart(xs, i, j - 1);
    }
  }

  predicate InSlot(p: Native, k: nat, a: nat)
    requires p.relocs + 16 * k + 16 <= |p.data|
  {
    Target(p, k) <= a < Target(p, k) + 8
  }

  /** Aligned increasing slots do not overlap. */
  lemma {:induction false} SlotsApart(p: Native, k: nat, m: nat)
    requires k < m && p.relocs + 16 * m + 16 <= |p.data| && forall i :: 0 <= i <= m ==> RelocOk(p, i)
    ensures Target(p, k) + 8 <= Target(p, m)
    decreases m
  {
    hide Target, Addend;
    assert RelocOk(p, m) && RelocOk(p, m - 1) && RelocOk(p, k);
    if k < m - 1 {
      SlotsApart(p, k, m - 1);
    }
  }

  /** A slot in the pages of one section is in no other. */
  lemma PagesDiffer(x: Section, y: Section, sig: nat, o: nat, t: nat)
    requires SectionOk(x, sig) && SectionOk(y, sig) && IsMapped(x) && SlotIn(y, t) && o < PageUp(x.memory)
    requires PagesApart(x, y) || PagesApart(y, x)
    ensures !(t <= x.rva + o < t + 8)
  {
    AlignedUp(x.rva, x.memory);
  }

  lemma AlignedUp(rva: nat, n: nat)
    requires rva % 4096 == 0
    ensures PageUp(rva + n) == rva + PageUp(n)
  {
  }

  /** The slot of relocation `m` is patched in the staged copy of its section, and nowhere else. */
  lemma PatchPlace(p: Native, sig: nat, m: nat, i: nat, o: nat) returns (at: int)
    requires Admitted(p.sections, p.entry, sig) && FilesOk(p.data, p.sections)
    requires p.relocs + 16 * m + 16 <= |p.data| && RelocOk(p, m)
    requires i < |p.sections| && IsMapped(p.sections[i]) && o < PageUp(p.sections[i].memory)
    ensures var xs := p.sections;
            var j := Holder(Segments(xs), Target(p, m), 0);
            && j >= 0 && at == Segments(xs)[j].at + Target(p, m) - Segments(xs)[j].rva && 0 <= at && at + 8 <= Used(xs)
            && (at <= Place(xs, i) + o < at + 8 <==> InSlot(p, m, xs[i].rva + o))
            && (InSlot(p, m, xs[i].rva + o) ==> Place(xs, i) + o - at == xs[i].rva + o - Target(p, m))
  {
    hide Target, Addend, Segments, PageUp, Used, Place, MappedCount, SourceOf;
    var xs, t := p.sections, Target(p, m);
    var k :| 0 <= k < |xs| && SlotIn(xs[k], t);
    assert SectionOk(xs[k], sig) && SectionOk(xs[i], sig);
    var jk := SegmentFor(xs, k);
    assert Fits(Segments(xs)[jk], t);
    var j := Holder(Segments(xs), t, 0);
    var s := SourceOf(xs, j);
    assert SectionOk(xs[s], sig);
    assert xs[s].kind == 3;
    at := Place(xs, s) + t - xs[s].rva;
    SegmentsStaged(xs);
    if s != i {
      if s < i {
        PlacesApart(xs, s, i);
        assert PagesApart(xs[i], xs[s]);
      } else {
        PlacesApart(xs, i, s);
        assert PagesApart(xs[s], xs[i]);
      }
      PagesDiffer(xs[i], xs[s], sig, o, t);
    }
  }

  /**
   The staged image of a well-formed package: at every address of every mapped
   section the byte is that of the relocated word there, if any, and otherwise the
   file's byte or a zero.
   */
  lemma {:induction false} RelocatedByte(p: Native, sig: nat, base: nat, n: nat, i: nat, o: nat)
    requires Admitted(p.sections, p.entry, sig) && FilesOk(p.data, p.sections) && p.relocs + 16 * n <= |p.data|
    requires forall k :: 0 <= k < n ==> RelocOk(p, k)
    requires i < |p.sections| && IsMapped(p.sections[i]) && o < PageUp(p.sections[i].memory)
    ensures Staged(Segments(p.sections), Used(p.sections)) && Place(p.sections, i) + o < Used(p.sections)
    ensures var xs := p.sections;
            var b := Relocated(Image(p.data, xs), Segments(xs), p, base, n)[Place(xs, i) + o];
            var a := xs[i].rva + o;
            && (forall k :: 0 <= k < n && InSlot(p, k, a) ==> b == Le(base + Addend(p, k), 8)[a - Target(p, k)])
            && ((forall k :: 0 <= k < n ==> !InSlot(p, k, a)) ==> b == if o < xs[i].bytes then p.data[xs[i].offset + o] else 0)
    decreases n
  {
    hide Target, Addend, Segments, PageUp, Place, Used, Admitted, RelocOk, Holder, Le, Image;
    var xs := p.sections;
    SegmentsStaged(xs);
    ImageByte(p.data, xs, i, o);
    if n > 0 {
      RelocatedByte(p, sig, base, n - 1, i, o);
      var at := PatchPlace(p, sig, n - 1, i, o);
      forall k | 0 <= k < n - 1
        ensures Target(p, k) + 8 <= Target(p, n - 1)
      {
        SlotsApart(p, k, n - 1);
      }
    }
  }

  /** The sections of a well-formed file can be staged as they are. */
  lemma AdmittedFiles(p: Native, sig: nat)
    requires Admitted(p.sections, p.entry, sig) && sig <= |p.data|
    ensures FilesOk(p.data, p.sections) && 0 < MappedCount(p.sections) <= SEGMENTS
  {
    hide PagesApart, PageUp, MappedCount, Segments;
    var k :| 0 <= k < |p.sections| && HoldsEntry(p.sections[k], p.entry);
    var j := SegmentFor(p.sections, k);
    SegmentCount(p.sections);
    forall i | 0 <= i < |p.sections|
      ensures FileOk(p.data, p.sections[i])
    {
      assert SectionOk(p.sections[i], sig);
    }
  }

  /** The package's sections and entry are those of its well-formed file. */
  ghost predicate FromFile(p: Native) {
    && WellFormed(p.data)
    && var d := PartsOf(p.data);
       p.entry == d.entry && p.sections == Sections(p.data, d.table, d.count)
  }

  lemma FileAdmits(p: Native) returns (sig: nat)
    requires FromFile(p)
    ensures sig <= |p.data| && Admitted(p.sections, p.entry, sig)
  {
    hide Admitted, Sections, HeaderOk, Field, Layout.Tiles, Cbor.Item, PaddingZero, Ranges;
    sig := PartsOf(p.data).sig;
  }

  /** The staged byte at offset `o` of section `i`: part of a relocated word, or the file's byte or zero where there is none. */
  ghost predicate LoadedByte(p: Native, base: nat, image: seq<byte>, i: nat, o: nat)
    requires i < |p.sections| && p.relocs + 16 * p.count <= |p.data|
  {
    && var x, a := p.sections[i], p.sections[i].rva + o;
       && Place(p.sections, i) + o < |image| && x.offset + x.bytes <= |p.data|
       && var b := image[Place(p.sections, i) + o];
          || (exists k :: 0 <= k < p.count && InSlot(p, k, a) && b == Le(base + Addend(p, k), 8)[a - Target(p, k)])
          || ((forall k :: 0 <= k < p.count ==> !InSlot(p, k, a)) && b == if o < x.bytes then p.data[x.offset + o] else 0)
  }

  /**
   From file to kernel: whatever well-formed file a package came from, and whatever
   base and relocations its loader accepts, the plan passes the kernel's check and
   every staged byte is the file's, zero, or part of a relocated word.
   */
  lemma WellFormedLoads(p: Native, base: nat)
    requires FromFile(p) && Accepts(p, base)
    ensures FilesOk(p.data, p.sections) && ValidPlan(Segments(p.sections), p.entry, Chosen(base))
    ensures p.relocs + 16 * p.count <= |p.data| && Staged(Segments(p.sections), Used(p.sections))
    ensures var image := Relocated(Image(p.data, p.sections), Segments(p.sections), p, Chosen(base), p.count);
            forall i, o :: 0 <= i < |p.sections| && IsMapped(p.sections[i]) && 0 <= o < PageUp(p.sections[i].memory) ==>
              LoadedByte(p, Chosen(base), image, i, o)
  {
    hide Admitted, Relocated, Image, Segments, Used, Place, PageUp, ValidPlan, Staged, LoadedByte, FromFile, Accepts, IsMapped;
    var sig := FileAdmits(p);
    AdmittedFiles(p, sig);
    AcceptsBase(p, base);
    PlanIsValid(p.sections, p.entry, sig, Chosen(base));
    RelocsInside(p);
    SegmentsStaged(p.sections);
    var image := Relocated(Image(p.data, p.sections), Segments(p.sections), p, Chosen(base), p.count);
    forall i, o | 0 <= i < |p.sections| && IsMapped(p.sections[i]) && 0 <= o < PageUp(p.sections[i].memory)
      ensures LoadedByte(p, Chosen(base), image, i, o)
    {
      assert FileOk(p.data, p.sections[i]);
      ByteLoads(p, sig, Chosen(base), i, o);
    }
  }

  lemma ByteLoads(p: Native, sig: nat, base: nat, i: nat, o: nat)
    requires Admitted(p.sections, p.entry, sig) && FilesOk(p.data, p.sections) && RelocsOk(p) && p.relocs + 16 * p.count <= |p.data|
    requires i < |p.sections| && IsMapped(p.sections[i]) && o < PageUp(p.sections[i].memory) && FileOk(p.data, p.sections[i])
    ensures Staged(Segments(p.sections), Used(p.sections))
    ensures LoadedByte(p, base, Relocated(Image(p.data, p.sections), Segments(p.sections), p, base, p.count), i, o)
  {
    hide Admitted, Relocated, Image, Segments, Used, Place, PageUp, Staged, InSlot, Le, Target, Addend, RelocsOk;
    AllRelocs(p);
    RelocatedByte(p, sig, base, p.count, i, o);
  }

  lemma AcceptsBase(p: Native, base: nat)
    requires Accepts(p, base)
    ensures BaseValid(Chosen(base)) && RelocsOk(p)
  {
    hide RelocsOk;
  }

  lemma AllRelocs(p: Native)
    requires RelocsOk(p) && p.relocs + 16 * p.count <= |p.data|
    ensures forall k :: 0 <= k < p.count ==> RelocOk(p, k)
  {
    hide RelocOk;
  }

  // ---------------------------------------------------------- the loader

  datatype Status = Loaded | Invalid | BadFormat | NoSpace

  /** What the preflight accepts. */
  predicate RoomFor(p: Native, capacity: nat) {
    FilesOk(p.data, p.sections) && Used(p.sections) <= capacity && MappedCount(p.sections) <= SEGMENTS
  }

  method Preflight(p: Native, capacity: nat) returns (ok: bool, count: nat)
    ensures ok == RoomFor(p, capacity)
    ensures ok ==> count == MappedCount(p.sections)
  {
    hide PageUp, IsMapped;
    var used := 0;
    count := 0;
    var xs := p.sections;
    for i := 0 to |xs|
      invariant FilesOk(p.data, xs[..i]) && used == Used(xs[..i]) <= capacity && count == MappedCount(xs[..i]) <= SEGMENTS
    {
      var x := xs[i];
      PrefixStep(xs, i);
      if IsMapped(x) {
        var mem := PageUp(x.memory);
        if x.memory == 0 || x.memory > IMAGE_MAX || x.bytes > x.memory || x.offset + x.bytes > |p.data| || mem > capacity - used || count == SEGMENTS {
          PrefixMonotone(xs, i + 1);
          return false, count;
        }
        used, count := used + mem, count + 1;
      }
    }
    assert xs[..|xs|] == xs;
    return true, count;
  }

  lemma PrefixStep(xs: seq<Section>, i: nat)
    requires i < |xs|
    ensures xs[..i + 1] == xs[..i] + [xs[i]] && Front(xs[..i + 1]) == xs[..i] && Last(xs[..i + 1]) == xs[i]
    ensures Used(xs[..i + 1]) == Used(xs[..i]) + (if IsMapped(xs[i]) then PageUp(xs[i].memory) else 0)
    ensures MappedCount(xs[..i + 1]) == MappedCount(xs[..i]) + (if IsMapped(xs[i]) then 1 else 0)
    ensures Segments(xs[..i + 1]) == Segments(xs[..i]) + (if IsMapped(xs[i]) then [Segment(xs[i].rva, xs[i].memory, Used(xs[..i]), xs[i].flags)] else [])
  {
    hide PageUp, IsMapped;
    assert xs[..i + 1][..i] == xs[..i];
  }

  lemma {:induction false} PrefixMonotone(xs: seq<Section>, i: nat)
    requires i <= |xs|
    ensures Used(xs[..i]) <= Used(xs) && MappedCount(xs[..i]) <= MappedCount(xs)
    decreases |xs| - i
  {
    hide PageUp, IsMapped, Used, MappedCount;
    if i < |xs| {
      PrefixStep(xs, i);
      PrefixMonotone(xs, i + 1);
    } else {
      assert xs[..i] == xs;
    }
  }

  /** Zeroes the section's pages and copies its file bytes in. */
  method Stage(d: seq<byte>, x: Section, buffer: array<byte>, used: nat)
    requires IsMapped(x) && FileOk(d, x) && used + PageUp(x.memory) <= buffer.Length
    modifies buffer
    ensures buffer[..used + PageUp(x.memory)] == old(buffer[..used]) + Padded(d, x)
    ensures buffer[used + PageUp(x.memory)..] == old(buffer[used + PageUp(x.memory)..])
  {
    hide PageUp;
    var mem := PageUp(x.memory);
    for k := 0 to mem
      invariant forall i :: 0 <= i < used || used + mem <= i < buffer.Length ==> buffer[i] == old(buffer[i])
      invariant forall i :: used <= i < used + k ==> buffer[i] == 0
    {
      buffer[used + k] := 0;
    }
    for k := 0 to x.bytes
      invariant forall i :: 0 <= i < used || used + mem <= i < buffer.Length ==> buffer[i] == old(buffer[i])
      invariant forall i :: used + k <= i < used + mem ==> buffer[i] == 0
      invariant forall i :: used <= i < used + k ==> buffer[i] == d[x.offset + i - used]
    {
      buffer[used + k] := d[x.offset + k];
    }
    var p := Padded(d, x);
    forall i | 0 <= i < mem
      ensures buffer[used + i] == p[i]
    {
    }
  }

  /** Writes one relocated word. */
  method WriteWord(buffer: array<byte>, at: nat, v: nat)
    requires at + 8 <= buffer.Length
    modifies buffer
    ensures buffer[..] == Patch(old(buffer[..]), at, v)
  {
    var word := Le(v, 8);
    for k := 0 to 8
      invariant forall i :: 0 <= i < buffer.Length && !(at <= i < at + k) ==> buffer[i] == old(buffer[i])
      invariant forall i :: 0 <= i < k ==> buffer[at + i] == word[i]
    {
      buffer[at + k] := word[k];
    }
  }

  method FindHolder(segs: seq<Segment>, target: nat) returns (r: int)
    ensures r == Holder(segs, target, 0)
  {
    hide Fits;
    for j := 0 to |segs|
      invariant Holder(segs, target, 0) == Holder(segs, target, j)
    {
      if Fits(segs[j], target) {
        return j;
      }
    }
    return -1;
  }

  method Relocate(p: Native, segs: seq<Segment>, base: nat, buffer: array<byte>, used: nat)
    requires used <= buffer.Length && Staged(segs, used) && p.relocs + 16 * p.count <= |p.data|
    modifies buffer
    ensures buffer[..used] == Relocated(old(buffer[..used]), segs, p, base, p.count)
    ensures buffer[used..] == old(buffer[used..])
  {
    hide Target, Addend, Holder, Le, Staged;
    ghost var img := buffer[..used];
    for i := 0 to p.count
      invariant buffer[..used] == Relocated(img, segs, p, base, i)
      invariant buffer[used..] == old(buffer[used..])
    {
      var target, value := Target(p, i), base + Addend(p, i);
      var j := FindHolder(segs, target);
      if j >= 0 {
        InStage(segs, used, j);
        ghost var was := buffer[..];
        var at := segs[j].at + target - segs[j].rva;
        assert was[..used] == Relocated(img, segs, p, base, i) && was[used..] == old(buffer[used..]);
        WriteWord(buffer, at, value);
        PatchFront(was, at, value, used);
      }
    }
  }

  lemma InStage(segs: seq<Segment>, n: nat, j: nat)
    requires Staged(segs, n) && j < |segs|
    ensures segs[j].at + segs[j].bytes <= n
  {
  }

  lemma PatchFront(b: seq<byte>, at: nat, v: nat, n: nat)
    requires at + 8 <= n <= |b|
    ensures Patch(b, at, v)[..n] == Patch(b[..n], at, v) && Patch(b, at, v)[n..] == b[n..]
  {
    hide Le;
  }

  /** The base a request stands for. */
  function Chosen(base: nat): nat { if base == 0 then BASE else base }

  /** When staging is allowed at all. */
  ghost predicate Accepts(p: Native, base: nat) {
    && BaseValid(base) && (base == 0 ==> p.profile == 0) && RelocsOk(p)
    && (p.profile == 1 ==> Chosen(base) >= PIE_MIN) && (p.profile == 0 ==> Chosen(base) == BASE)
  }

  predicate BadBase(p: Native, base: nat) {
    !BaseValid(base) || (base == 0 && p.profile != 0) || (p.profile == 1 && Chosen(base) < PIE_MIN)
  }

  /** Stages the image and its plan, or changes nothing. */
  method Load(p: Native, base: nat, buffer: array<byte>) returns (r: Status, segs: seq<Segment>, at: nat)
    modifies buffer
    ensures r == Loaded <==> Accepts(p, base) && RoomFor(p, buffer.Length) && MappedCount(p.sections) > 0
    ensures r == Invalid <==> BadBase(p, base)
    ensures r == NoSpace <==> Accepts(p, base) && !RoomFor(p, buffer.Length)
    ensures r != Loaded ==> buffer[..] == old(buffer[..])
    ensures r == Loaded ==> at == if base == 0 then 0x4000_0000 else base
    ensures r == Loaded ==>
      && at == Chosen(base) && segs == Segments(p.sections) && Staged(segs, Used(p.sections)) && p.relocs + 16 * p.count <= |p.data|
      && buffer[..Used(p.sections)] == Relocated(Image(p.data, p.sections), segs, p, at, p.count)
      && buffer[Used(p.sections)..] == old(buffer[Used(p.sections)..])
  {
    hide RelocsOk, Relocated, PageUp, BaseValid, IsMapped, Padded;
    segs, at := [], Chosen(base);
    if !BaseValid(base) || (base == 0 && p.profile != 0) {
      return Invalid, segs, at;
    }
    if p.profile == 1 && at < PIE_MIN {
      return Invalid, segs, at;
    }
    var good := ValidateRelocations(p);
    if (p.profile == 0 && at != BASE) || !good {
      return BadFormat, segs, at;
    }
    var ok, count := Preflight(p, buffer.Length);
    if !ok {
      return NoSpace, segs, at;
    }
    if count == 0 {
      return BadFormat, segs, at;
    }
    segs := StageAll(p, buffer);
    SegmentsStaged(p.sections);
    RelocsInside(p);
    var used := StagedBytes(p.sections);
    Relocate(p, segs, at, buffer, used);
    return Loaded, segs, at;
  }

  lemma RelocsInside(p: Native)
    requires RelocsOk(p)
    ensures p.relocs + 16 * p.count <= |p.data|
  {
  }

  method StagedBytes(xs: seq<Section>) returns (used: nat)
    ensures used == Used(xs)
  {
    hide PageUp, IsMapped;
    used := 0;
    for i := 0 to |xs|
      invariant used == Used(xs[..i])
    {
      PrefixStep(xs, i);
      if IsMapped(xs[i]) {
        used := used + PageUp(xs[i].memory);
      }
    }
    assert xs[..|xs|] == xs;
  }

  method StageAll(p: Native, buffer: array<byte>) returns (segs: seq<Segment>)
    requires RoomFor(p, buffer.Length)
    modifies buffer
    ensures segs == Segments(p.sections) && buffer[..Used(p.sections)] == Image(p.data, p.sections)
    ensures buffer[Used(p.sections)..] == old(buffer[Used(p.sections)..])
  {
    hide PageUp, IsMapped, Used, Segments, MappedCount, Padded, Image, FileOk;
    var xs := p.sections;
    segs := [];
    var used := 0;
    Nothing(p.data);
    for i := 0 to |xs|
      invariant used == Used(xs[..i]) <= buffer.Length && segs == Segments(xs[..i])
      invariant buffer[..used] == Image(p.data, xs[..i]) && buffer[used..] == old(buffer[used..])
    {
      PrefixStep(xs, i);
      PrefixMonotone(xs, i + 1);
      ImageStep(p.data, xs, i);
      if IsMapped(xs[i]) {
        var mem := PageUp(xs[i].memory);
        ghost var rest := buffer[used..];
        Stage(p.data, xs[i], buffer, used);
        assert buffer[used + mem..] == rest[mem..];
        assert old(buffer[used..])[mem..] == old(buffer[used + mem..]);
        segs := segs + [Segment(xs[i].rva, xs[i].memory, used, xs[i].flags)];
        used := used + mem;
      }
    }
    assert xs[..|xs|] == xs;
  }

  lemma Nothing(d: seq<byte>)
    ensures Used([]) == 0 && Segments([]) == [] && Image(d, []) == []
  {
  }

  lemma ImageStep(d: seq<byte>, xs: seq<Section>, i: nat)
    requires i < |xs| && FilesOk(d, xs)
    ensures Image(d, xs[..i + 1]) == Image(d, xs[..i]) + (if IsMapped(xs[i]) then Padded(d, xs[i]) else [])
  {
    hide PageUp, IsMapped, Padded, FileOk;
    assert xs[..i + 1][..i] == xs[..i];
  }
}
