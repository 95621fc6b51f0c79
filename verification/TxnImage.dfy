/**
 The bytes of one transaction bank: a 512-byte header, one 128-byte record per
 file and one fixed-size data slot per file. `Decode` says which byte strings a
 mount accepts and what they mean; `Image` is what a commit writes. The two are
 proved to be inverse to each other for every hash function.
 */
module TxnImage {
  import opened Bytes

  const SECTOR := 512
  const FILES := 5
  const FILE_BYTES := 16384
  const BANK_SECTORS := 256
  const BANK_BYTES := BANK_SECTORS * SECTOR
  const ENTRY := 128
  const MAX_U64 := 0xffff_ffff_ffff_ffff

  /** "SFBANK1" with its terminating NUL. */
  const BANK_MAGIC: seq<byte> := [83, 70, 66, 65, 78, 75, 49, 0]

  type Digest = s: seq<byte> | |s| == 32 witness Zeros(32)
  type Hash = seq<byte> -> Digest

  datatype Option<T> = None | Some(value: T)

  /** One table slot; an unused slot has the empty path and no data. */
  datatype File = File(path: seq<byte>, data: seq<byte>)

  const EMPTY := File([], [])

  /** How many records a bank holds and where its data slots start. */
  datatype Geometry = Geometry(slots: nat, dataStart: nat)

  const CURRENT := Geometry(FILES, 512 + FILES * ENTRY)
  const LEGACY := Geometry(4, 1024)

  predicate Fits(g: Geometry) {
    g.slots <= FILES && 512 + g.slots * ENTRY <= g.dataStart && g.dataStart + g.slots * FILE_BYTES <= BANK_BYTES
  }

  // ---------------------------------------------------------------- paths

  const SLASH: byte := 47
  const DOT: byte := 46

  /** `p[i..j]` is a maximal run between two slashes (or a slash and the end). */
  predicate Component(p: seq<byte>, i: int, j: int) {
    && 1 <= i <= j <= |p|
    && p[i - 1] == SLASH
    && (j == |p| || p[j] == SLASH)
    && (forall k :: i <= k < j ==> p[k] != SLASH)
  }

  predicate Plain(p: seq<byte>, i: int)
    requires 1 <= i < |p|
  {
    33 <= p[i] <= 126 && p[i] != 92 && !(p[i] == SLASH && p[i - 1] == SLASH)
  }

  predicate DotName(s: seq<byte>) {
    s == [DOT] || s == [DOT, DOT]
  }

  predicate PathOk(p: seq<byte>) {
    && 2 <= |p| < 64
    && p[0] == SLASH
    && p[|p| - 1] != SLASH
    && (forall i :: 1 <= i < |p| ==> Plain(p, i))
    && (forall i, j :: 1 <= i <= j <= |p| && Component(p, i, j) ==> !DotName(p[i..j]))
  }

  /** The validator's scan: character pass, then one component at a time. */
  method CheckPath(p: seq<byte>) returns (ok: bool)
    ensures ok == PathOk(p)
  {
    var n := |p|;
    if n < 2 || n >= 64 || p[0] != SLASH || p[n - 1] == SLASH {
      return false;
    }
    var i := 1;
    while i < n
      invariant 1 <= i <= n
      invariant forall k :: 1 <= k < i ==> Plain(p, k)
    {
      if !Plain(p, i) {
        return false;
      }
      i := i + 1;
    }
    i := 1;
    while i < n
      invariant 1 <= i <= n + 1
      invariant i == n + 1 || p[i - 1] == SLASH
      invariant forall a, b :: 1 <= a <= b <= n && a < i && Component(p, a, b) ==> !DotName(p[a..b])
      decreases n + 1 - i
    {
      var j := i;
      while j < n && p[j] != SLASH
        invariant i <= j <= n
        invariant forall k :: i <= k < j ==> p[k] != SLASH
      {
        j := j + 1;
      }
      assert Component(p, i, j);
      if (j - i == 1 && p[i] == DOT) || (j - i == 2 && p[i] == DOT && p[i + 1] == DOT) {
        assert DotName(p[i..j]);
        return false;
      }
      forall a, b | 1 <= a <= b <= n && a < j + 1 && Component(p, a, b)
        ensures !DotName(p[a..b])
      {
        if a >= i {
          ComponentUnique(p, i, j, a, b);
        }
      }
      i := j + 1;
    }
    ok := true;
  }

  /** A component starting inside another one's extent is that component. */
  lemma ComponentUnique(p: seq<byte>, i: int, j: int, a: int, b: int)
    requires Component(p, i, j) && Component(p, a, b) && i <= a <= j
    ensures a == i && b == j
  {
  }

  /** Bytes before the first NUL, or everything when there is none. */
  function CStr(s: seq<byte>): (p: seq<byte>)
    ensures |p| <= |s| && p == s[..|p|]
    ensures forall k :: 0 <= k < |p| ==> s[k] != 0
    ensures |p| < |s| ==> s[|p|] == 0
  {
    if s == [] || s[0] == 0 then [] else [s[0]] + CStr(s[1..])
  }

  lemma {:induction false} CStrPadded(p: seq<byte>, n: nat)
    requires (forall k :: 0 <= k < |p| ==> p[k] != 0) && n > 0
    ensures CStr(p + Zeros(n)) == p
  {
    if p != [] {
      CStrPadded(p[1..], n);
      assert (p + Zeros(n))[1..] == p[1..] + Zeros(n);
    }
  }

  // --------------------------------------------------------------- tables

  ghost predicate Wf(files: seq<File>) {
    && |files| == FILES
    && (forall i :: 0 <= i < FILES ==> SlotOk(files[i]))
    && (forall i, j :: 0 <= i < j < FILES && files[i] == EMPTY ==> files[j] == EMPTY)
    && (forall i, j :: 0 <= i < j < FILES && files[j] != EMPTY ==> files[i].path != files[j].path)
  }

  ghost predicate SlotOk(f: File) {
    f == EMPTY || (PathOk(f.path) && |f.data| <= FILE_BYTES)
  }

  /** Used slots come first, so their number delimits them. */
  function Count(files: seq<File>): (n: nat)
    ensures n <= |files|
    ensures forall i :: 0 <= i < n ==> files[i].path != []
    ensures n < |files| ==> files[n].path == []
  {
    if files == [] || files[0].path == [] then 0 else 1 + Count(files[1..])
  }

  lemma CountSplits(files: seq<File>, i: nat)
    requires Wf(files) && i < FILES
    ensures i < Count(files) <==> files[i] != EMPTY
  {
  }

  // ---------------------------------------------------------------- decode

  function Entry(b: seq<byte>, i: nat): (e: seq<byte>)
    requires 512 + (i + 1) * ENTRY <= |b|
    ensures |e| == ENTRY
  {
    b[512 + i * ENTRY..512 + (i + 1) * ENTRY]
  }

  function Slot(b: seq<byte>, i: nat, start: nat): (d: seq<byte>)
    requires start + (i + 1) * FILE_BYTES <= |b|
    ensures |d| == FILE_BYTES
  {
    b[start + i * FILE_BYTES..start + (i + 1) * FILE_BYTES]
  }

  function Length(e: seq<byte>): nat
    requires |e| == ENTRY
  {
    LeVal(e[64..68])
  }

  function Path(e: seq<byte>): (p: seq<byte>)
    requires |e| == ENTRY
    ensures |p| <= 64
  {
    CStr(e[..64])
  }

  /** A used record together with its data slot. */
  predicate Record(sha: Hash, e: seq<byte>, d: seq<byte>)
    requires |e| == ENTRY && |d| == FILE_BYTES
  {
    && PathOk(Path(e))
    && Length(e) <= FILE_BYTES
    && AllZero(e[|Path(e)| + 1..64])
    && AllZero(e[68..96])
    && AllZero(d[Length(e)..])
    && sha(d[..Length(e)]) == e[96..128]
  }

  predicate HeaderIs(b: seq<byte>, generation: nat, slots: nat)
    requires |b| == BANK_BYTES
  {
    && b[..8] == BANK_MAGIC
    && LeVal(b[8..16]) == generation
    && LeVal(b[16..20]) <= slots
    && AllZero(b[20..512])
  }

  predicate Accepts(sha: Hash, b: seq<byte>, generation: nat, g: Geometry)
    requires |b| == BANK_BYTES && Fits(g)
  {
    && HeaderIs(b, generation, g.slots)
    && (forall i :: 0 <= i < g.slots ==> Accepted(sha, b, g, i))
    && (forall i, j :: 0 <= i < j < LeVal(b[16..20]) ==> Path(Entry(b, i)) != Path(Entry(b, j)))
    && AllZero(b[g.dataStart + g.slots * FILE_BYTES..])
  }

  predicate Accepted(sha: Hash, b: seq<byte>, g: Geometry, i: nat)
    requires |b| == BANK_BYTES && Fits(g) && i < g.slots
  {
    var e, d := Entry(b, i), Slot(b, i, g.dataStart);
    if i < LeVal(b[16..20]) then Record(sha, e, d) else AllZero(e) && AllZero(d)
  }

  function FileAt(b: seq<byte>, g: Geometry, i: nat): File
    requires |b| == BANK_BYTES && Fits(g) && i < FILES
  {
    if i < g.slots && i < LeVal(b[16..20]) && Length(Entry(b, i)) <= FILE_BYTES then
      File(Path(Entry(b, i)), Slot(b, i, g.dataStart)[..Length(Entry(b, i))])
    else
      EMPTY
  }

  function Decode(sha: Hash, b: seq<byte>, generation: nat, g: Geometry): Option<seq<File>>
    requires |b| == BANK_BYTES && Fits(g)
  {
    if Accepts(sha, b, generation, g) then
      Some(seq(FILES, i requires 0 <= i < FILES => FileAt(b, g, i)))
    else
      None
  }

  // ----------------------------------------------------------------- image

  function EntryOf(sha: Hash, f: File): (e: seq<byte>)
    requires |f.path| <= 64
    ensures |e| == ENTRY
  {
    if f == EMPTY then Zeros(ENTRY)
    else f.path + Zeros(64 - |f.path|) + Le(|f.data|, 4) + Zeros(28) + sha(f.data)
  }

  function SlotOf(f: File): (d: seq<byte>)
    requires |f.data| <= FILE_BYTES
    ensures |d| == FILE_BYTES
  {
    f.data + Zeros(FILE_BYTES - |f.data|)
  }

  function HeaderOf(generation: nat, count: nat): (h: seq<byte>)
    ensures |h| == 512
  {
    BANK_MAGIC + Le(generation, 8) + Le(count, 4) + Zeros(492)
  }

  ghost predicate Writable(files: seq<File>) {
    |files| == FILES && forall i :: 0 <= i < FILES ==> |files[i].path| <= 64 && |files[i].data| <= FILE_BYTES
  }

  lemma WfWritable(files: seq<File>)
    requires Wf(files)
    ensures Writable(files)
  {
  }

  ghost function ByteAt(sha: Hash, generation: nat, files: seq<File>, k: nat): byte
    requires Writable(files)
  {
    if k < 512 then HeaderOf(generation, Count(files))[k]
    else if k < CURRENT.dataStart then EntryOf(sha, files[(k - 512) / ENTRY])[(k - 512) % ENTRY]
    else if k < CURRENT.dataStart + FILES * FILE_BYTES then
      SlotOf(files[(k - CURRENT.dataStart) / FILE_BYTES])[(k - CURRENT.dataStart) % FILE_BYTES]
    else 0
  }

  /** The whole bank a commit builds for `files`. */
  ghost function Image(sha: Hash, generation: nat, files: seq<File>): (b: seq<byte>)
    requires Writable(files)
    ensures |b| == BANK_BYTES
  {
    seq(BANK_BYTES, k requires 0 <= k < BANK_BYTES => ByteAt(sha, generation, files, k))
  }

  lemma ImageHeader(sha: Hash, generation: nat, files: seq<File>)
    requires Writable(files)
    ensures Image(sha, generation, files)[..512] == HeaderOf(generation, Count(files))
  {
  }

  lemma ImageEntry(sha: Hash, generation: nat, files: seq<File>, i: nat)
    requires Writable(files) && i < FILES
    ensures Entry(Image(sha, generation, files), i) == EntryOf(sha, files[i])
  {
    hide ByteAt, EntryOf;
    var b := Image(sha, generation, files);
    forall k | 0 <= k < ENTRY
      ensures Entry(b, i)[k] == EntryOf(sha, files[i])[k]
    {
      ByteOfEntry(sha, generation, files, i, k);
      var at := 512 + i * ENTRY + k;
      assert b[at] == ByteAt(sha, generation, files, at);
      assert Entry(b, i)[k] == b[at];
    }
  }

  lemma ByteOfEntry(sha: Hash, generation: nat, files: seq<File>, i: nat, k: nat)
    requires Writable(files) && i < FILES && k < ENTRY
    ensures ByteAt(sha, generation, files, 512 + i * ENTRY + k) == EntryOf(sha, files[i])[k]
  {
    hide HeaderOf, EntryOf, SlotOf, Count;
    DivMod(i, k, ENTRY);
  }

  lemma ImageSlot(sha: Hash, generation: nat, files: seq<File>, i: nat)
    requires Writable(files) && i < FILES
    ensures Slot(Image(sha, generation, files), i, CURRENT.dataStart) == SlotOf(files[i])
  {
    hide ByteAt, SlotOf;
    var b := Image(sha, generation, files);
    forall k | 0 <= k < FILE_BYTES
      ensures Slot(b, i, CURRENT.dataStart)[k] == SlotOf(files[i])[k]
    {
      ByteOfSlot(sha, generation, files, i, k);
      var at := CURRENT.dataStart + i * FILE_BYTES + k;
      assert b[at] == ByteAt(sha, generation, files, at);
    }
  }

  lemma ByteOfSlot(sha: Hash, generation: nat, files: seq<File>, i: nat, k: nat)
    requires Writable(files) && i < FILES && k < FILE_BYTES
    ensures ByteAt(sha, generation, files, CURRENT.dataStart + i * FILE_BYTES + k) == SlotOf(files[i])[k]
  {
    hide HeaderOf, EntryOf, SlotOf, Count;
    DivMod(i, k, FILE_BYTES);
  }

  /** A record written for a legal file reads back as that file. */
  lemma RecordOf(sha: Hash, f: File)
    requires f != EMPTY && SlotOk(f)
    ensures Record(sha, EntryOf(sha, f), SlotOf(f))
    ensures Path(EntryOf(sha, f)) == f.path && Length(EntryOf(sha, f)) == |f.data|
    ensures SlotOf(f)[..|f.data|] == f.data
  {
    hide Le, LeVal, CStr;
    var e, d := EntryOf(sha, f), SlotOf(f);
    EntryFields(sha, f);
    assert d[..|f.data|] == f.data;
  }

  lemma EntryFields(sha: Hash, f: File)
    requires f != EMPTY && SlotOk(f)
    ensures var e := EntryOf(sha, f);
            && Path(e) == f.path && Length(e) == |f.data| && e[96..128] == sha(f.data)
            && e[|f.path|..64] == Zeros(64 - |f.path|) && e[68..96] == Zeros(28)
  {
    hide Le, LeVal, CStr;
    var e := EntryOf(sha, f);
    assert e[..64] == f.path + Zeros(64 - |f.path|);
    forall k | 0 <= k < |f.path|
      ensures f.path[k] != 0
    {
      assert k > 0 ==> Plain(f.path, k);
    }
    CStrPadded(f.path, 64 - |f.path|);
    assert e[64..68] == Le(|f.data|, 4);
    Pow256Values();
    LeRoundTrip(|f.data|, 4);
  }

  /** Reading back what was written: decoding an image yields its files. */
  lemma DecodeImage(sha: Hash, generation: nat, files: seq<File>)
    requires Wf(files) && generation <= MAX_U64
    ensures Writable(files)
    ensures Decode(sha, Image(sha, generation, files), generation, CURRENT) == Some(files)
  {
    var b := Image(sha, generation, files);
    ImageHeaderFields(sha, generation, files);
    forall i | 0 <= i < FILES
      ensures Accepted(sha, b, CURRENT, i) && FileAt(b, CURRENT, i) == files[i]
      ensures i < Count(files) ==> Path(Entry(b, i)) == files[i].path
    {
      ImageRow(sha, generation, files, i);
    }
    assert AllZero(b[CURRENT.dataStart + FILES * FILE_BYTES..]);
    assert Accepts(sha, b, generation, CURRENT) by {
      forall i, j | 0 <= i < j < LeVal(b[16..20])
        ensures Path(Entry(b, i)) != Path(Entry(b, j))
      {
        CountSplits(files, j);
      }
    }
    assert seq(FILES, i requires 0 <= i < FILES => FileAt(b, CURRENT, i)) == files;
  }

  lemma ImageHeaderFields(sha: Hash, generation: nat, files: seq<File>)
    requires Writable(files) && generation <= MAX_U64
    ensures HeaderIs(Image(sha, generation, files), generation, FILES)
    ensures LeVal(Image(sha, generation, files)[16..20]) == Count(files)
    ensures LeVal(Image(sha, generation, files)[8..16]) == generation
  {
    var b, h := Image(sha, generation, files), HeaderOf(generation, Count(files));
    ImageHeader(sha, generation, files);
    Pow256Values();
    LeRoundTrip(generation, 8);
    LeRoundTrip(Count(files), 4);
    assert b[..8] == h[..8] == BANK_MAGIC;
    assert b[8..16] == b[..512][8..16] == Le(generation, 8);
    assert b[16..20] == b[..512][16..20] == Le(Count(files), 4);
    assert b[20..512] == h[20..512];
  }

  lemma ImageRow(sha: Hash, generation: nat, files: seq<File>, i: nat)
    requires Wf(files) && generation <= MAX_U64 && i < FILES
    requires Writable(files)
    ensures Accepted(sha, Image(sha, generation, files), CURRENT, i)
    ensures FileAt(Image(sha, generation, files), CURRENT, i) == files[i]
    ensures i < Count(files) ==> Path(Entry(Image(sha, generation, files), i)) == files[i].path
  {
    ImageHeaderFields(sha, generation, files);
    ImageEntry(sha, generation, files, i);
    ImageSlot(sha, generation, files, i);
    CountSplits(files, i);
    if files[i] != EMPTY {
      RecordOf(sha, files[i]);
    }
  }

  // ------------------------------------------------- decoding is canonical

  /** A record that passes the checks is the one that would be written. */
  lemma RecordCanonical(sha: Hash, e: seq<byte>, d: seq<byte>)
    requires |e| == ENTRY && |d| == FILE_BYTES && Record(sha, e, d)
    ensures var f := File(Path(e), d[..Length(e)]);
            f != EMPTY && SlotOk(f) && EntryOf(sha, f) == e && SlotOf(f) == d
  {
    var p, n := Path(e), Length(e);
    LeCanonical(e[64..68]);
    assert e[..64] == p + Zeros(64 - |p|);
    assert e == e[..64] + e[64..68] + e[68..96] + e[96..128];
    assert d == d[..n] + d[n..];
  }

  lemma RowCanonical(sha: Hash, b: seq<byte>, generation: nat, g: Geometry, i: nat)
    requires |b| == BANK_BYTES && Fits(g) && Accepts(sha, b, generation, g) && i < g.slots
    ensures var f := FileAt(b, g, i);
            && SlotOk(f) && (f == EMPTY <==> i >= LeVal(b[16..20]))
            && |f.path| <= 64
            && Entry(b, i) == EntryOf(sha, f) && Slot(b, i, g.dataStart) == SlotOf(f)
  {
    assert Accepted(sha, b, g, i);
    if i < LeVal(b[16..20]) {
      RecordCanonical(sha, Entry(b, i), Slot(b, i, g.dataStart));
    } else {
      AllZeroIsZeros(Entry(b, i));
      AllZeroIsZeros(Slot(b, i, g.dataStart));
    }
  }

  /** Whatever geometry it is read with, an accepted bank is a legal table. */
  lemma DecodedTable(sha: Hash, b: seq<byte>, generation: nat, g: Geometry)
    requires |b| == BANK_BYTES && Fits(g) && Decode(sha, b, generation, g).Some?
    ensures Wf(Decode(sha, b, generation, g).value)
    ensures Count(Decode(sha, b, generation, g).value) == LeVal(b[16..20])
  {
    hide Record, EntryOf, SlotOf, PathOk;
    var files := Decode(sha, b, generation, g).value;
    var count := LeVal(b[16..20]);
    forall i | 0 <= i < FILES
      ensures files[i] == FileAt(b, g, i) && SlotOk(files[i])
      ensures files[i] == EMPTY <==> i >= count
      ensures i < count ==> files[i].path == Path(Entry(b, i))
    {
      if i < g.slots {
        RowCanonical(sha, b, generation, g, i);
      }
    }
    forall i, j | 0 <= i < j < FILES && files[j] != EMPTY
      ensures files[i].path != files[j].path
    {
      assert Path(Entry(b, i)) != Path(Entry(b, j));
    }
    assert Wf(files);
    if count < FILES {
      CountSplits(files, count);
    }
    if count > 0 {
      CountSplits(files, count - 1);
    }
  }

  /** Every accepted bank is byte for byte the image of what it decodes to. */
  lemma DecodeCanonical(sha: Hash, b: seq<byte>, generation: nat)
    requires |b| == BANK_BYTES && Decode(sha, b, generation, CURRENT).Some?
    ensures var files := Decode(sha, b, generation, CURRENT).value;
            Wf(files) && Writable(files) && b == Image(sha, generation, files)
  {
    hide EntryOf, SlotOf, FileAt, HeaderOf, Accepted, Record;
    var files := Decode(sha, b, generation, CURRENT).value;
    DecodedTable(sha, b, generation, CURRENT);
    HeaderCanonical(b, generation, FILES);
    forall i | 0 <= i < FILES
      ensures Entry(b, i) == EntryOf(sha, files[i]) && Slot(b, i, CURRENT.dataStart) == SlotOf(files[i])
    {
      RowCanonical(sha, b, generation, CURRENT, i);
    }
    ImageFromParts(sha, b, generation, files);
  }

  /** A bank is determined by its header, its records, its slots and a zero tail. */
  lemma ImageFromParts(sha: Hash, b: seq<byte>, generation: nat, files: seq<File>)
    requires |b| == BANK_BYTES && Writable(files)
    requires b[..512] == HeaderOf(generation, Count(files))
    requires forall i :: 0 <= i < FILES ==> Entry(b, i) == EntryOf(sha, files[i])
    requires forall i :: 0 <= i < FILES ==> Slot(b, i, CURRENT.dataStart) == SlotOf(files[i])
    requires AllZero(b[CURRENT.dataStart + FILES * FILE_BYTES..])
    ensures b == Image(sha, generation, files)
  {
    hide EntryOf, SlotOf, HeaderOf, ByteAt;
    forall k: nat | k < BANK_BYTES
      ensures b[k] == ByteAt(sha, generation, files, k)
    {
      ByteFromParts(sha, b, generation, files, k);
    }
  }

  lemma EntryByte(b: seq<byte>, i: nat, r: nat)
    requires |b| == BANK_BYTES && i < FILES && r < 128
    ensures Entry(b, i)[r] == b[512 + i * 128 + r]
  {
  }

  lemma SlotByte(b: seq<byte>, i: nat, r: nat)
    requires |b| == BANK_BYTES && i < FILES && r < 16384
    ensures Slot(b, i, CURRENT.dataStart)[r] == b[1152 + i * 16384 + r]
  {
  }

  lemma ByteFromParts(sha: Hash, b: seq<byte>, generation: nat, files: seq<File>, k: nat)
    requires |b| == BANK_BYTES && Writable(files) && k < BANK_BYTES
    requires b[..512] == HeaderOf(generation, Count(files))
    requires forall i :: 0 <= i < FILES ==> Entry(b, i) == EntryOf(sha, files[i])
    requires forall i :: 0 <= i < FILES ==> Slot(b, i, CURRENT.dataStart) == SlotOf(files[i])
    requires AllZero(b[CURRENT.dataStart + FILES * FILE_BYTES..])
    ensures b[k] == ByteAt(sha, generation, files, k)
  {
    hide EntryOf, SlotOf, HeaderOf, Entry, Slot;
    if k < 512 {
      assert b[k] == b[..512][k];
    } else if k < 1152 {
      EntryByte(b, (k - 512) / 128, (k - 512) % 128);
    } else if k < 1152 + 5 * 16384 {
      SlotByte(b, (k - 1152) / 16384, (k - 1152) % 16384);
    } else {
      assert b[k] == b[CURRENT.dataStart + FILES * FILE_BYTES..][k - (1152 + 5 * 16384)];
    }
  }

  lemma HeaderCanonical(b: seq<byte>, generation: nat, slots: nat)
    requires |b| == BANK_BYTES && HeaderIs(b, generation, slots)
    ensures b[..512] == HeaderOf(generation, LeVal(b[16..20]))
  {
    LeCanonical(b[8..16]);
    LeCanonical(b[16..20]);
    AllZeroIsZeros(b[20..512]);
    assert b[..512] == b[..8] + b[8..16] + b[16..20] + b[20..512];
  }

  // --------------------------------------------------- exactly what decodes

  /** The bank holds `files` in `slots` records from byte 512 and data slots from byte `start`. */
  ghost predicate Lays(sha: Hash, b: seq<byte>, generation: nat, files: seq<File>, slots: nat, start: nat) {
    && |b| == BANK_BYTES && Writable(files) && Count(files) <= slots <= FILES
    && 512 + 128 * slots <= start && start + 16384 * slots <= BANK_BYTES
    && b[..512] == HeaderOf(generation, Count(files))
    && (forall i :: 0 <= i < slots ==> b[512 + 128 * i..512 + 128 * i + 128] == EntryOf(sha, files[i]))
    && (forall i :: 0 <= i < slots ==> b[start + 16384 * i..start + 16384 * i + 16384] == SlotOf(files[i]))
    && AllZero(b[start + 16384 * slots..])
  }

  lemma HeaderFields(b: seq<byte>, generation: nat, count: nat)
    requires |b| == BANK_BYTES && generation <= MAX_U64 && count <= FILES && b[..512] == HeaderOf(generation, count)
    ensures LeVal(b[16..20]) == count && forall slots: nat :: count <= slots ==> HeaderIs(b, generation, slots)
  {
    var h := HeaderOf(generation, count);
    Pow256Values();
    LeRoundTrip(generation, 8);
    LeRoundTrip(count, 4);
    assert b[..8] == b[..512][..8] == BANK_MAGIC;
    assert b[8..16] == b[..512][8..16] == Le(generation, 8);
    assert b[16..20] == b[..512][16..20] == Le(count, 4);
    assert b[20..512] == h[20..512];
  }

  lemma LaidRow(sha: Hash, b: seq<byte>, generation: nat, files: seq<File>, g: Geometry, i: nat)
    requires Wf(files) && Fits(g) && Lays(sha, b, generation, files, g.slots, g.dataStart)
    requires LeVal(b[16..20]) == Count(files) && i < FILES
    ensures i < g.slots ==> Accepted(sha, b, g, i)
    ensures FileAt(b, g, i) == files[i]
    ensures i < Count(files) ==> Path(Entry(b, i)) == files[i].path
  {
    hide LeVal, Record, EntryOf, SlotOf, PathOk, Path;
    CountSplits(files, i);
    if i < g.slots {
      assert Entry(b, i) == EntryOf(sha, files[i]);
      assert Slot(b, i, g.dataStart) == SlotOf(files[i]);
      if files[i] != EMPTY {
        RecordOf(sha, files[i]);
      } else {
        EmptyRow(sha);
      }
    }
  }

  lemma EmptyRow(sha: Hash)
    ensures AllZero(EntryOf(sha, EMPTY)) && AllZero(SlotOf(EMPTY))
  {
  }

  lemma LaidPaths(sha: Hash, b: seq<byte>, generation: nat, files: seq<File>, g: Geometry, i: nat, j: nat)
    requires Wf(files) && Fits(g) && Lays(sha, b, generation, files, g.slots, g.dataStart)
    requires LeVal(b[16..20]) == Count(files) && i < j < Count(files)
    ensures Path(Entry(b, i)) != Path(Entry(b, j))
  {
    hide LeVal, Lays, Entry, Path, PathOk, FileAt, Accepted;
    LaidRow(sha, b, generation, files, g, i);
    LaidRow(sha, b, generation, files, g, j);
    CountSplits(files, j);
  }

  lemma LaidAccepts(sha: Hash, b: seq<byte>, generation: nat, files: seq<File>, g: Geometry)
    requires Wf(files) && Fits(g) && generation <= MAX_U64 && Lays(sha, b, generation, files, g.slots, g.dataStart)
    ensures |b| == BANK_BYTES && LeVal(b[16..20]) == Count(files) && Accepts(sha, b, generation, g)
  {
    hide LeVal, Accepted, Entry, HeaderIs, FileAt, HeaderOf, Path, Wf, EntryOf, SlotOf;
    HeaderFields(b, generation, Count(files));
    forall i: nat | i < g.slots
      ensures Accepted(sha, b, g, i)
    {
      LaidRow(sha, b, generation, files, g, i);
    }
    forall i: nat, j: nat | i < j < LeVal(b[16..20])
      ensures Path(Entry(b, i)) != Path(Entry(b, j))
    {
      LaidPaths(sha, b, generation, files, g, i, j);
    }
  }

  lemma LaidDecodes(sha: Hash, b: seq<byte>, generation: nat, files: seq<File>, g: Geometry)
    requires Wf(files) && Fits(g) && generation <= MAX_U64 && Lays(sha, b, generation, files, g.slots, g.dataStart)
    ensures Decode(sha, b, generation, g) == Some(files)
  {
    hide LeVal, Accepts, Accepted, Entry, FileAt, Lays, Path, PathOk;
    LaidAccepts(sha, b, generation, files, g);
    forall i: nat | i < FILES
      ensures FileAt(b, g, i) == files[i]
    {
      LaidRow(sha, b, generation, files, g, i);
    }
    assert seq(FILES, i requires 0 <= i < FILES => FileAt(b, g, i)) == files;
  }

  lemma DecodedLays(sha: Hash, b: seq<byte>, generation: nat, g: Geometry)
    requires |b| == BANK_BYTES && Fits(g) && Decode(sha, b, generation, g).Some?
    ensures var files := Decode(sha, b, generation, g).value;
            Wf(files) && Lays(sha, b, generation, files, g.slots, g.dataStart)
  {
    hide EntryOf, SlotOf, FileAt, HeaderOf, Accepted, Record, LeVal;
    var files := Decode(sha, b, generation, g).value;
    DecodedTable(sha, b, generation, g);
    WfWritable(files);
    HeaderCanonical(b, generation, g.slots);
    forall i: nat | i < g.slots
      ensures b[512 + 128 * i..512 + 128 * i + 128] == EntryOf(sha, files[i])
      ensures b[g.dataStart + 16384 * i..g.dataStart + 16384 * i + 16384] == SlotOf(files[i])
    {
      assert files[i] == FileAt(b, g, i);
      RowCanonical(sha, b, generation, g, i);
      assert b[512 + 128 * i..512 + 128 * i + 128] == Entry(b, i);
      assert b[g.dataStart + 16384 * i..g.dataStart + 16384 * i + 16384] == Slot(b, i, g.dataStart);
    }
  }

  /** A bank decodes to a table, under either geometry, exactly when it holds that legal table there. */
  lemma DecodeExact(sha: Hash, b: seq<byte>, generation: nat, g: Geometry, files: seq<File>)
    requires |b| == BANK_BYTES && Fits(g) && generation <= MAX_U64
    ensures Decode(sha, b, generation, g) == Some(files) <==>
              Wf(files) && Lays(sha, b, generation, files, g.slots, g.dataStart)
  {
    hide Decode, Lays, Wf;
    if Decode(sha, b, generation, g) == Some(files) {
      DecodedLays(sha, b, generation, g);
    }
    if Wf(files) && Lays(sha, b, generation, files, g.slots, g.dataStart) {
      LaidDecodes(sha, b, generation, files, g);
    }
  }

  // --------------------------------------------------------- two geometries

  /** The bank passes both the five-slot and the four-slot checks. */
  predicate Ambiguous(sha: Hash, b: seq<byte>, generation: nat) {
    |b| == BANK_BYTES && Accepts(sha, b, generation, CURRENT) && Accepts(sha, b, generation, LEGACY)
  }

  /** Byte `k` of stored file `i` under the current geometry is at `p`. */
  predicate Stored(b: seq<byte>, p: nat, i: nat, k: nat) {
    && |b| == BANK_BYTES && i < 4 && i < LeVal(b[16..20])
    && k < Length(Entry(b, i)) <= FILE_BYTES && p == CURRENT.dataStart + i * FILE_BYTES + k
  }

  /** Behind the table there are stored bytes and zeros. */
  lemma Locate(sha: Hash, b: seq<byte>, generation: nat, p: nat) returns (i: nat, k: nat)
    requires Ambiguous(sha, b, generation) && CURRENT.dataStart <= p < BANK_BYTES
    ensures b[p] == 0 || Stored(b, p, i, k)
  {
    hide Path, PathOk, LeVal;
    i, k := (p - 1152) / 16384, (p - 1152) % 16384;
    if i >= FILES {
      assert b[p] == b[CURRENT.dataStart + FILES * FILE_BYTES..][p - (1152 + 5 * 16384)];
    } else {
      assert Accepted(sha, b, CURRENT, i);
      SlotByte(b, i, k);
      var d := Slot(b, i, CURRENT.dataStart);
      if i < LeVal(b[16..20]) && k >= Length(Entry(b, i)) {
        assert d[k] == d[Length(Entry(b, i))..][k - Length(Entry(b, i))];
      }
    }
  }

  /** Under the legacy geometry the same byte of the file lies one table entry earlier. */
  lemma StoredTwice(b: seq<byte>, p: nat, i: nat, k: nat)
    requires Stored(b, p, i, k)
    ensures k < |FileAt(b, CURRENT, i).data| && FileAt(b, CURRENT, i).data[k] == b[p]
    ensures k < |FileAt(b, LEGACY, i).data| && FileAt(b, LEGACY, i).data[k] == b[p - ENTRY]
  {
    hide Path, LeVal;
  }

  lemma {:induction false} AgreeMeansZero(sha: Hash, b: seq<byte>, generation: nat, p: nat)
    requires Ambiguous(sha, b, generation) && LEGACY.dataStart <= p < BANK_BYTES
    requires forall i: nat :: i < FILES ==> FileAt(b, CURRENT, i) == FileAt(b, LEGACY, i)
    ensures b[p] == 0
    decreases p
  {
    hide Path, PathOk, LeVal, FileAt;
    if p < CURRENT.dataStart {
      assert Accepted(sha, b, CURRENT, 4);
      EntryByte(b, 4, p - 1024);
    } else {
      var i, k := Locate(sha, b, generation, p);
      if Stored(b, p, i, k) {
        StoredTwice(b, p, i, k);
        AgreeMeansZero(sha, b, generation, p - ENTRY);
      }
    }
  }

  lemma ZeroMeansAgree(b: seq<byte>, i: nat)
    requires |b| == BANK_BYTES && i < FILES && LeVal(b[16..20]) <= 4 && AllZero(b[LEGACY.dataStart..])
    ensures FileAt(b, CURRENT, i) == FileAt(b, LEGACY, i)
  {
    hide Path, LeVal;
    forall k: nat | LEGACY.dataStart <= k < BANK_BYTES
      ensures b[k] == 0
    {
      assert b[k] == b[LEGACY.dataStart..][k - LEGACY.dataStart];
    }
  }

  /** Files shorter than one table entry can only be zeros. */
  lemma ShortMeansZero(sha: Hash, b: seq<byte>, generation: nat, p: nat)
    requires Ambiguous(sha, b, generation) && LEGACY.dataStart <= p < BANK_BYTES
    requires forall i: nat :: i < 4 && i < LeVal(b[16..20]) ==> Length(Entry(b, i)) <= ENTRY
    ensures b[p] == 0
  {
    hide Path, PathOk, LeVal, FileAt, Length;
    if p < CURRENT.dataStart {
      assert Accepted(sha, b, CURRENT, 4);
      EntryByte(b, 4, p - 1024);
    } else {
      var i, k := Locate(sha, b, generation, p);
      if Stored(b, p, i, k) {
        assert Accepted(sha, b, LEGACY, i);
        ShortTail(sha, b, p, i, k);
      }
    }
  }

  /** Behind a file that ends within the entry shift its slot is zero. */
  lemma ShortTail(sha: Hash, b: seq<byte>, p: nat, i: nat, k: nat)
    requires |b| == BANK_BYTES && p < BANK_BYTES && Stored(b, p, i, k) && i < 4 && Accepted(sha, b, LEGACY, i)
    requires Length(Entry(b, i)) <= ENTRY
    ensures b[p] == 0
  {
    hide Path, PathOk, LeVal, Length;
    var d, n := Slot(b, i, LEGACY.dataStart), Length(Entry(b, i));
    assert d[n..][k + ENTRY - n] == d[k + ENTRY] == b[p];
  }

  /**
   A bank that passes both checks describes the same paths, lengths and digests
   either way. The two readings are the same table exactly when everything behind
   the four-entry table is zero; any file they differ on is a collision of the hash
   between two strings of equal length.
   */
  lemma GeometriesAgree(sha: Hash, b: seq<byte>, generation: nat)
    requires |b| == BANK_BYTES
    requires Decode(sha, b, generation, CURRENT).Some? && Decode(sha, b, generation, LEGACY).Some?
    ensures var five, four := Decode(sha, b, generation, CURRENT).value, Decode(sha, b, generation, LEGACY).value;
            && (five == four <==> AllZero(b[LEGACY.dataStart..]))
            && (forall i :: 0 <= i < FILES ==>
                  && five[i].path == four[i].path && |five[i].data| == |four[i].data|
                  && (five[i] != four[i] ==> five[i].data != four[i].data && sha(five[i].data) == sha(four[i].data)))
  {
    hide Accepts, FileAt;
    var five, four := Decode(sha, b, generation, CURRENT).value, Decode(sha, b, generation, LEGACY).value;
    forall i: nat | i < FILES
      ensures five[i] == FileAt(b, CURRENT, i) && four[i] == FileAt(b, LEGACY, i)
      ensures five[i].path == four[i].path && |five[i].data| == |four[i].data| && sha(five[i].data) == sha(four[i].data)
      ensures AllZero(b[LEGACY.dataStart..]) ==> five[i] == four[i]
    {
      ReadingsMatch(sha, b, generation, i);
      if AllZero(b[LEGACY.dataStart..]) {
        ZeroMeansAgree(b, i);
      }
    }
    if five == four {
      forall k: nat | LEGACY.dataStart <= k < BANK_BYTES
        ensures b[k] == 0
      {
        AgreeMeansZero(sha, b, generation, k);
      }
    }
  }

  lemma ReadingsMatch(sha: Hash, b: seq<byte>, generation: nat, i: nat)
    requires Ambiguous(sha, b, generation) && i < FILES
    ensures LeVal(b[16..20]) <= 4
    ensures var f, g := FileAt(b, CURRENT, i), FileAt(b, LEGACY, i);
            f.path == g.path && |f.data| == |g.data| && sha(f.data) == sha(g.data)
  {
    hide Path, PathOk, LeVal;
    assert Accepted(sha, b, CURRENT, i);
    assert i < 4 ==> Accepted(sha, b, LEGACY, i);
  }

  /** With every file at most as long as a table entry the two readings agree, whatever the hash. */
  lemma ShortFilesAgree(sha: Hash, b: seq<byte>, generation: nat)
    requires |b| == BANK_BYTES
    requires Decode(sha, b, generation, CURRENT).Some? && Decode(sha, b, generation, LEGACY).Some?
    requires forall i :: 0 <= i < FILES ==> |Decode(sha, b, generation, CURRENT).value[i].data| <= ENTRY
    ensures Decode(sha, b, generation, CURRENT) == Decode(sha, b, generation, LEGACY)
  {
    hide Accepts, Path, LeVal;
    var five := Decode(sha, b, generation, CURRENT).value;
    forall i: nat | i < 4 && i < LeVal(b[16..20])
      ensures Length(Entry(b, i)) <= ENTRY
    {
      assert five[i] == FileAt(b, CURRENT, i);
      RecordLength(sha, b, generation, i);
    }
    forall k: nat | LEGACY.dataStart <= k < BANK_BYTES
      ensures b[k] == 0
    {
      ShortMeansZero(sha, b, generation, k);
    }
    GeometriesAgree(sha, b, generation);
  }

  lemma RecordLength(sha: Hash, b: seq<byte>, generation: nat, i: nat)
    requires Ambiguous(sha, b, generation) && i < 4 && i < LeVal(b[16..20])
    ensures Length(Entry(b, i)) <= FILE_BYTES
  {
    hide LeVal, Path, PathOk;
    assert Accepted(sha, b, CURRENT, i);
  }
}
