/** Page-table pages in physical memory, and the translation they spell. */
module PageTables {
  import opened Bytes

  const NX: nat := 0x8000_0000_0000_0000
  const FRAMES: nat := 0x100_0000_0000
  const WORD: nat := 0x1_0000_0000_0000_0000
  const VPAGES: nat := 0x4_0000

  // --------------------------------------------------------------- entries

  predicate Present(w: nat) { w % 2 == 1 }
  predicate Writable(w: nat) { w / 2 % 2 == 1 }
  predicate User(w: nat) { w / 4 % 2 == 1 }
  predicate Mmio(w: nat) { w / 512 % 2 == 1 }
  predicate NoExec(w: nat) { w / NX % 2 == 1 }
  function FrameOf(w: nat): (f: nat) ensures f < FRAMES { w / 4096 % FRAMES }

  /** A table entry: present, writable and user, as every intermediate level is. */
  function TableEntry(frame: nat): nat { 4096 * frame + 7 }

  /** A leaf: the physical address is page aligned, so the flag bits add. */
  function LeafEntry(frame: nat, write: bool, exec: bool, mmio: bool): nat {
    4096 * frame + 5 + (if write then 2 else 0) + (if exec then 0 else NX) + (if mmio then 0x218 else 0)
  }

  lemma TableBits(f: nat)
    requires f < FRAMES
    ensures Present(TableEntry(f)) && FrameOf(TableEntry(f)) == f && TableEntry(f) < WORD
  {
    assert TableEntry(f) / 4096 == f;
  }

  lemma LeafBits(f: nat, write: bool, exec: bool, mmio: bool)
    requires f < FRAMES
    ensures var w := LeafEntry(f, write, exec, mmio);
            && w < WORD && Present(w) && User(w) && FrameOf(w) == f
            && Writable(w) == write && NoExec(w) == !exec && Mmio(w) == mmio
  {
    hide Present, User, Writable, Mmio;
    var low := 5 + (if write then 2 else 0) + (if mmio then 0x218 else 0);
    var high := f + (if exec then 0 else 0x8_0000_0000_0000);
    var w := 4096 * high + low;
    assert w == LeafEntry(f, write, exec, mmio);
    assert w / 4096 == high;
    LowBits(high, low);
    LowValues(write, mmio);
  }

  lemma LowBits(high: nat, low: nat)
    requires low < 4096
    ensures var w := 4096 * high + low;
            Present(w) == Present(low) && Writable(w) == Writable(low) && User(w) == User(low) && Mmio(w) == Mmio(low)
  {
    hide Present, Writable, User, Mmio;
    LowBit0(high, low);
    LowBit1(high, low);
    LowBit2(high, low);
    LowBit9(high, low);
  }

  lemma LowBit0(high: nat, low: nat)
    ensures Present(4096 * high + low) == Present(low)
  {
  }

  lemma LowBit1(high: nat, low: nat)
    ensures Writable(4096 * high + low) == Writable(low)
  {
    assert (4096 * high + low) / 2 == 2048 * high + low / 2;
  }

  lemma LowBit2(high: nat, low: nat)
    ensures User(4096 * high + low) == User(low)
  {
    assert (4096 * high + low) / 4 == 1024 * high + low / 4;
  }

  lemma LowBit9(high: nat, low: nat)
    ensures Mmio(4096 * high + low) == Mmio(low)
  {
    assert (4096 * high + low) / 512 == 8 * high + low / 512;
  }

  lemma LowValues(write: bool, mmio: bool)
    ensures var low := 5 + (if write then 2 else 0) + (if mmio then 0x218 else 0);
            Present(low) && User(low) && Writable(low) == write && Mmio(low) == mmio
  {
  }

  // ----------------------------------------------------------------- pages

  function Word(page: seq<byte>, i: nat): nat
    requires |page| == 4096 && i < 512
  {
    LeVal(page[8 * i..8 * i + 8])
  }

  function PutWord(page: seq<byte>, i: nat, w: nat): (p: seq<byte>)
    requires |page| == 4096 && i < 512
    ensures |p| == 4096
  {
    page[..8 * i] + Le(w, 8) + page[8 * i + 8..]
  }

  lemma PutGet(page: seq<byte>, i: nat, w: nat)
    requires |page| == 4096 && i < 512 && w < WORD
    ensures Word(PutWord(page, i, w), i) == w
  {
    hide Le, LeVal, Pow256;
    Pow256Values();
    LeRoundTrip(w, 8);
    assert PutWord(page, i, w)[8 * i..8 * i + 8] == Le(w, 8);
  }

  lemma PutElsewhere(page: seq<byte>, i: nat, w: nat, k: nat)
    requires |page| == 4096 && i < 512 && k < 512 && k != i
    ensures Word(PutWord(page, i, w), k) == Word(page, k)
  {
    hide Le, LeVal;
    assert PutWord(page, i, w)[8 * k..8 * k + 8] == page[8 * k..8 * k + 8];
  }

  lemma {:induction false} ZeroValue(s: seq<byte>)
    requires AllZero(s)
    ensures LeVal(s) == 0
  {
    if s != [] {
      ZeroValue(s[1..]);
    }
  }

  // ----------------------------------------------------------------- walks

  /** A word of physical memory; nothing is stored outside it. */
  function Get(fs: seq<seq<byte>>, f: nat, i: nat): nat {
    if f < |fs| && |fs[f]| == 4096 && i < 512 then Word(fs[f], i) else 0
  }

  function Put(fs: seq<seq<byte>>, f: nat, i: nat, w: nat): (r: seq<seq<byte>>)
    requires f < |fs| && |fs[f]| == 4096 && i < 512
    ensures |r| == |fs| && |r[f]| == 4096 && forall g :: 0 <= g < |fs| && g != f ==> r[g] == fs[g]
  {
    fs[f := PutWord(fs[f], i, w)]
  }

  lemma PutReads(fs: seq<seq<byte>>, f: nat, i: nat, w: nat, g: nat, k: nat)
    requires f < |fs| && |fs[f]| == 4096 && i < 512 && w < WORD
    ensures Get(Put(fs, f, i, w), g, k) == if g == f && k == i then w else Get(fs, g, k)
  {
    hide Word, PutWord;
    if g == f && k < 512 {
      if k == i {
        PutGet(fs[f], i, w);
      } else {
        PutElsewhere(fs[f], i, w, k);
      }
    }
  }

  lemma ZeroReads(fs: seq<seq<byte>>, f: nat, i: nat)
    requires f < |fs| && AllZero(fs[f])
    ensures Get(fs, f, i) == 0
  {
    if |fs[f]| == 4096 && i < 512 {
      ZeroValue(fs[f][8 * i..8 * i + 8]);
    }
  }

  /** The level-3 page below the level-4 page `root`. */
  function Upper(fs: seq<seq<byte>>, root: nat): nat { FrameOf(Get(fs, root, 0)) }

  /** The three entries a walk reads: every user address has level-3 index 1. */
  function Entry3(fs: seq<seq<byte>>, root: nat): nat { Get(fs, Upper(fs, root), 1) }

  function Entry2(fs: seq<seq<byte>>, root: nat, b: nat): nat {
    if Present(Entry3(fs, root)) then Get(fs, FrameOf(Entry3(fs, root)), b) else 0
  }

  function Entry1(fs: seq<seq<byte>>, root: nat, vp: nat): nat {
    if Present(Entry2(fs, root, vp / 512)) then Get(fs, FrameOf(Entry2(fs, root, vp / 512)), vp % 512) else 0
  }

  datatype Mapping = Unmapped | Mapped(entry: nat)

  /** The abstract map: user page number to leaf entry. */
  function Translate(fs: seq<seq<byte>>, root: nat, vp: nat): Mapping {
    if Present(Entry1(fs, root, vp)) then Mapped(Entry1(fs, root, vp)) else Unmapped
  }

  // ------------------------------------------------------------ structure

  /** What each physical page is for; `Data` and `Window` pages have one user page number. */
  datatype Use =
    | Free
    | Root(pid: nat)
    | Dir3(pid: nat)
    | Dir2(pid: nat)
    | Dir1(pid: nat, b: nat)
    | Data(pid: nat, vp: nat)
    | Window(at: nat)
    | Other

  predicate TableOf(u: Use, pid: nat) {
    (u.Root? || u.Dir3? || u.Dir2? || u.Dir1?) && u.pid == pid
  }

  predicate Links(w: nat, us: seq<Use>, u: Use) {
    w == 0 || (FrameOf(w) < |us| && w == TableEntry(FrameOf(w)) && us[FrameOf(w)] == u)
  }

  predicate Sized(fs: seq<seq<byte>>, us: seq<Use>) {
    |fs| == |us| <= FRAMES && forall f :: 0 <= f < |fs| ==> |fs[f]| == 4096
  }

  predicate Top(fs: seq<seq<byte>>, us: seq<Use>, kernel: nat, pid: nat, root: nat) {
    && root < |us| && us[root] == Root(pid)
    && Get(fs, root, 0) != 0 && Links(Get(fs, root, 0), us, Dir3(pid))
    && Get(fs, Upper(fs, root), 0) == kernel
  }

  /** Every page the walk can reach is a table of this space, at its own place in the tree. */
  ghost predicate Tables(fs: seq<seq<byte>>, us: seq<Use>, kernel: nat, pid: nat, root: nat) {
    && Sized(fs, us)
    && Top(fs, us, kernel, pid, root)
    && Links(Entry3(fs, root), us, Dir2(pid))
    && (forall b :: 0 <= b < 512 ==> Links(Entry2(fs, root, b), us, Dir1(pid, b)))
    && (forall vp :: 0 <= vp < VPAGES ==> Entry1(fs, root, vp) == 0 || Present(Entry1(fs, root, vp)))
  }

  /** What a user mapping may point at, and with which rights. */
  predicate LeafOk(w: nat, us: seq<Use>, pid: nat, vp: nat) {
    && User(w) && !(Writable(w) && !NoExec(w))
    && if FrameOf(w) < |us| then
         && !Mmio(w)
         && (us[FrameOf(w)] in {Data(pid, vp), Window(vp)} || (us[FrameOf(w)] == Other && !Writable(w)))
       else Mmio(w)
  }

  ghost predicate Leaves(fs: seq<seq<byte>>, us: seq<Use>, pid: nat, root: nat) {
    forall vp :: 0 <= vp < VPAGES && Translate(fs, root, vp).Mapped? ==> LeafOk(Translate(fs, root, vp).entry, us, pid, vp)
  }

  // --------------------------------------------------------- step lemmas

  /** Nothing moves in this space: its tables are untouched and no used page changes its use. */
  ghost predicate Untouched(fs: seq<seq<byte>>, us: seq<Use>, gs: seq<seq<byte>>, vs: seq<Use>, pid: nat) {
    && Sized(fs, us) && Sized(gs, vs) && |gs| == |fs|
    && (forall f :: 0 <= f < |us| && TableOf(us[f], pid) ==> gs[f] == fs[f] && vs[f] == us[f])
  }

  /** No page that a leaf of this space may target changes its use. */
  ghost predicate TargetsKept(us: seq<Use>, vs: seq<Use>, pid: nat) {
    |us| == |vs| && forall f :: 0 <= f < |us| && (us[f].Window? || us[f].Other? || (us[f].Data? && us[f].pid == pid)) ==> vs[f] == us[f]
  }

  lemma SameWalk(fs: seq<seq<byte>>, us: seq<Use>, gs: seq<seq<byte>>, vs: seq<Use>, kernel: nat, pid: nat, root: nat)
    requires Tables(fs, us, kernel, pid, root) && Untouched(fs, us, gs, vs, pid)
    ensures Upper(gs, root) == Upper(fs, root) && Entry3(gs, root) == Entry3(fs, root)
    ensures forall b :: 0 <= b < 512 ==> Entry2(gs, root, b) == Entry2(fs, root, b)
    ensures forall vp :: 0 <= vp < VPAGES ==> Entry1(gs, root, vp) == Entry1(fs, root, vp)
    ensures forall vp :: 0 <= vp < VPAGES ==> Translate(gs, root, vp) == Translate(fs, root, vp)
    ensures Tables(gs, vs, kernel, pid, root)
  {
    hide Word, FrameOf, TableEntry;
    assert Get(gs, root, 0) == Get(fs, root, 0);
    var p3 := Upper(fs, root);
    assert Get(gs, p3, 1) == Get(fs, p3, 1) && Get(gs, p3, 0) == Get(fs, p3, 0);
    forall b | 0 <= b < 512
      ensures Entry2(gs, root, b) == Entry2(fs, root, b) && Links(Entry2(gs, root, b), vs, Dir1(pid, b))
    {
      assert Links(Entry2(fs, root, b), us, Dir1(pid, b));
    }
    forall vp | 0 <= vp < VPAGES
      ensures Entry1(gs, root, vp) == Entry1(fs, root, vp)
    {
      assert Links(Entry2(fs, root, vp / 512), us, Dir1(pid, vp / 512));
    }
  }

  lemma SameLeaves(fs: seq<seq<byte>>, us: seq<Use>, gs: seq<seq<byte>>, vs: seq<Use>, pid: nat, root: nat)
    requires Leaves(fs, us, pid, root) && TargetsKept(us, vs, pid)
    requires forall vp :: 0 <= vp < VPAGES ==> Translate(gs, root, vp) == Translate(fs, root, vp)
    ensures Leaves(gs, vs, pid, root)
  {
    hide Translate, FrameOf;
    forall vp | 0 <= vp < VPAGES && Translate(gs, root, vp).Mapped?
      ensures LeafOk(Translate(gs, root, vp).entry, vs, pid, vp)
    {
      assert LeafOk(Translate(fs, root, vp).entry, us, pid, vp);
    }
  }

  /** Linking an empty level-2 table changes no translation. */
  lemma LinkLevel2(fs: seq<seq<byte>>, us: seq<Use>, kernel: nat, pid: nat, root: nat, n: nat)
    requires Tables(fs, us, kernel, pid, root) && !Present(Entry3(fs, root))
    requires n < |fs| && us[n] == Dir2(pid) && AllZero(fs[n])
    ensures Upper(fs, root) < |fs|
    ensures var gs := Put(fs, Upper(fs, root), 1, TableEntry(n));
            && Tables(gs, us, kernel, pid, root) && Entry3(gs, root) == TableEntry(n)
            && (forall b :: 0 <= b < 512 ==> Entry2(gs, root, b) == 0)
            && (forall vp :: 0 <= vp < VPAGES ==> Translate(gs, root, vp) == Translate(fs, root, vp))
  {
    hide Word, PutWord, FrameOf, TableEntry, Get, AllZero;
    var p3 := Upper(fs, root);
    GetInside(fs, us, root);
    var e := TableEntry(n);
    TableBits(n);
    var gs := Put(fs, p3, 1, e);
    PutReads(fs, p3, 1, e, root, 0);
    PutReads(fs, p3, 1, e, p3, 0);
    PutReads(fs, p3, 1, e, p3, 1);
    forall b | 0 <= b < 512
      ensures Entry2(gs, root, b) == 0
    {
      PutReads(fs, p3, 1, e, n, b);
      ZeroReads(fs, n, b);
    }
  }

  /** The level-3 page of a space is a page of memory. */
  lemma GetInside(fs: seq<seq<byte>>, us: seq<Use>, root: nat)
    requires Sized(fs, us)
    ensures Upper(fs, root) < |fs| ==> |fs[Upper(fs, root)]| == 4096
  {
  }

  /** Linking an empty level-1 table changes no translation. */
  lemma LinkLevel1(fs: seq<seq<byte>>, us: seq<Use>, kernel: nat, pid: nat, root: nat, b: nat, n: nat)
    requires Tables(fs, us, kernel, pid, root) && Present(Entry3(fs, root))
    requires b < 512 && !Present(Entry2(fs, root, b))
    requires n < |fs| && us[n] == Dir1(pid, b) && AllZero(fs[n])
    ensures FrameOf(Entry3(fs, root)) < |fs|
    ensures var gs := Put(fs, FrameOf(Entry3(fs, root)), b, TableEntry(n));
            && Tables(gs, us, kernel, pid, root) && Entry3(gs, root) == Entry3(fs, root) && Entry2(gs, root, b) == TableEntry(n)
            && (forall vp :: 0 <= vp < VPAGES ==> Translate(gs, root, vp) == Translate(fs, root, vp))
  {
    hide Word, PutWord, FrameOf, TableEntry, Get, AllZero;
    var p3, p2 := Upper(fs, root), FrameOf(Entry3(fs, root));
    var e := TableEntry(n);
    TableBits(n);
    var gs := Put(fs, p2, b, e);
    PutReads(fs, p2, b, e, root, 0);
    PutReads(fs, p2, b, e, p3, 0);
    PutReads(fs, p2, b, e, p3, 1);
    forall k | 0 <= k < 512
      ensures Entry2(gs, root, k) == if k == b then e else Entry2(fs, root, k)
    {
      PutReads(fs, p2, b, e, p2, k);
    }
    forall vp | 0 <= vp < VPAGES
      ensures Entry1(gs, root, vp) == Entry1(fs, root, vp)
    {
      var p1 := FrameOf(Entry2(gs, root, vp / 512));
      assert Links(Entry2(fs, root, vp / 512), us, Dir1(pid, vp / 512));
      PutReads(fs, p2, b, e, p1, vp % 512);
      if vp / 512 == b {
        ZeroReads(fs, n, vp % 512);
      }
    }
  }

  /** Writing a leaf slot changes exactly that translation. */
  lemma SetLeaf(fs: seq<seq<byte>>, us: seq<Use>, kernel: nat, pid: nat, root: nat, vp: nat, w: nat)
    requires Tables(fs, us, kernel, pid, root) && vp < VPAGES && Present(w) && w < WORD
    requires Present(Entry3(fs, root)) && Present(Entry2(fs, root, vp / 512))
    ensures FrameOf(Entry2(fs, root, vp / 512)) < |fs|
    ensures var gs := Put(fs, FrameOf(Entry2(fs, root, vp / 512)), vp % 512, w);
            && Tables(gs, us, kernel, pid, root) && Entry3(gs, root) == Entry3(fs, root)
            && Entry2(gs, root, vp / 512) == Entry2(fs, root, vp / 512)
            && (forall q :: 0 <= q < VPAGES ==> Translate(gs, root, q) == if q == vp then Mapped(w) else Translate(fs, root, q))
  {
    hide Word, PutWord, FrameOf, TableEntry, Get;
    var p3, p2 := Upper(fs, root), FrameOf(Entry3(fs, root));
    assert Links(Entry2(fs, root, vp / 512), us, Dir1(pid, vp / 512));
    var p1, c := FrameOf(Entry2(fs, root, vp / 512)), vp % 512;
    var gs := Put(fs, p1, c, w);
    PutReads(fs, p1, c, w, root, 0);
    PutReads(fs, p1, c, w, p3, 0);
    PutReads(fs, p1, c, w, p3, 1);
    forall k | 0 <= k < 512
      ensures Entry2(gs, root, k) == Entry2(fs, root, k)
    {
      PutReads(fs, p1, c, w, p2, k);
    }
    forall q | 0 <= q < VPAGES
      ensures Entry1(gs, root, q) == if q == vp then w else Entry1(fs, root, q)
    {
      assert Links(Entry2(fs, root, q / 512), us, Dir1(pid, q / 512));
      PutReads(fs, p1, c, w, FrameOf(Entry2(fs, root, q / 512)), q % 512);
      assert q == vp <==> q / 512 == vp / 512 && q % 512 == vp % 512;
    }
  }
}
