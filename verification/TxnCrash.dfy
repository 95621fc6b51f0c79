/**
 Every run of the commit protocol, one device operation at a time, with write
 and flush failures, crashes at any point and remounts.
 */
module TxnCrash {
  import opened Bytes
  import opened TxnImage
  import opened TxnDisk

  /** Where a commit is; each stage but `Idle` is about to do one operation. */
  datatype Stage =
    | Idle
    | Invalidate(next: seq<File>)
    | FlushInvalid(next: seq<File>)
    | WriteData(next: seq<File>, i: nat)
    | FlushData(next: seq<File>)
    | WriteRecord(next: seq<File>)
    | FlushRecord(next: seq<File>)

  datatype Volume = Volume(ready: bool, generation: nat, bank: nat, files: seq<File>)

  /**
   Disk, mounted volume and commit stage, with three history variables: the
   snapshot last acknowledged (`acked`, in bank `active`) and the one whose bank
   is complete but not yet acknowledged (`inflight`).
   */
  datatype Sys = Sys(durable: Disk, pending: seq<Write>, volume: Volume, stage: Stage,
                     active: nat, acked: Snapshot, inflight: Option<Snapshot>)

  // ------------------------------------------------------------- the cache

  predicate ByteFrom(d: Disk, pending: seq<Write>, i: nat, k: nat, v: byte)
    requires i < |d| && k < 512
  {
    v == d[i][k] || exists n :: 0 <= n < |pending| && pending[n].lba == i && pending[n].data[k] == v
  }

  /** `e` may be on the medium after power is lost. */
  ghost predicate CrashOf(d: Disk, pending: seq<Write>, e: Disk) {
    |e| == |d| && forall i: nat, k: nat :: i < |d| && k < 512 ==> ByteFrom(d, pending, i, k, e[i][k])
  }

  /** What a read returns: the last write, flushed or not. */
  function View(d: Disk, pending: seq<Write>): (v: Disk)
    requires forall n :: 0 <= n < |pending| ==> pending[n].lba < |d|
    ensures |v| == |d|
    decreases |pending|
  {
    if pending == [] then d
    else
      var w := pending[|pending| - 1];
      View(d, pending[..|pending| - 1])[w.lba := w.data]
  }

  ghost predicate Mixed(a: Sector, b: Sector, m: Sector) {
    forall k :: 0 <= k < 512 ==> m[k] == a[k] || m[k] == b[k]
  }

  // --------------------------------------------------------------- protocol

  function Flip(bank: nat): nat { if bank == 0 then 1 else 0 }

  function Other(s: Sys): nat { Flip(s.active) }

  ghost predicate Shape(s: Sys) {
    && |s.durable| == SECTORS && s.active < 2
    && (forall n :: 0 <= n < |s.pending| ==> HEADER < s.pending[n].lba < SECTORS)
  }

  ghost function Cache(s: Sys): Disk
    requires Shape(s)
  {
    View(s.durable, s.pending)
  }

  function ImageSector(b: seq<byte>, i: nat): Sector
    requires |b| == BANK_BYTES && i < BANK_SECTORS
  {
    b[i * 512..(i + 1) * 512]
  }

  ghost predicate Writing(s: Sys) {
    s.stage.Invalidate? || s.stage.WriteRecord? || (s.stage.WriteData? && s.stage.i < BANK_SECTORS)
  }

  predicate Flushing(s: Sys) {
    s.stage.FlushInvalid? || s.stage.FlushData? || s.stage.FlushRecord?
  }

  /** The sector write the current stage issues; the target is `bank ^ 1`. */
  ghost function NextWrite(sha: Hash, s: Sys): Write
    requires |s.durable| == SECTORS && s.volume.bank < 2 && Writing(s) && Writable(s.stage.next)
  {
    var target := Flip(s.volume.bank);
    var generation := s.volume.generation + 1;
    var image := Image(sha, generation, s.stage.next);
    if s.stage.Invalidate? then Write(RecordLba(target), Zeros(512))
    else if s.stage.WriteData? then Write(DataLba(target, s.stage.i), ImageSector(image, s.stage.i))
    else Write(RecordLba(target), CommitRecord(sha, target, VolumeId(s.durable[HEADER]), generation, sha(image)))
  }

  function AfterWrite(st: Stage): Stage
    requires !st.Idle?
  {
    if st.Invalidate? then FlushInvalid(st.next)
    else if st.WriteData? then (if st.i + 1 < BANK_SECTORS then WriteData(st.next, st.i + 1) else FlushData(st.next))
    else FlushRecord(st.next)
  }

  ghost predicate Begin(s: Sys, t: Sys, next: seq<File>) {
    && s.stage.Idle? && s.volume.ready && s.volume.generation < MAX_U64 && Wf(next)
    && t == s.(stage := Invalidate(next))
  }

  ghost predicate WriteOk(sha: Hash, s: Sys, t: Sys) {
    && Shape(s) && s.volume.bank < 2 && Writing(s) && Writable(s.stage.next)
    && t == s.(pending := s.pending + [NextWrite(sha, s)], stage := AfterWrite(s.stage))
  }

  /** A failed write may still have reached the cache, in part. */
  ghost predicate WriteFails(sha: Hash, s: Sys, t: Sys) {
    && Shape(s) && s.volume.bank < 2 && Writing(s) && Writable(s.stage.next)
    && t == s.(pending := t.pending, stage := Idle, volume := s.volume.(ready := false))
    && var w := NextWrite(sha, s);
       w.lba < SECTORS &&
       (t.pending == s.pending ||
        (|t.pending| == |s.pending| + 1 && t.pending[..|s.pending|] == s.pending &&
         t.pending[|s.pending|].lba == w.lba && Mixed(Cache(s)[w.lba], w.data, t.pending[|s.pending|].data)))
  }

  /** The state a successful flush leaves; the last one acknowledges the commit. */
  ghost function Flushed(s: Sys): Sys
    requires Shape(s) && Flushing(s)
  {
    var clean := s.(durable := Cache(s), pending := []);
    var sn := Snapshot(s.volume.generation + 1, s.stage.next);
    if s.stage.FlushInvalid? then clean.(stage := WriteData(s.stage.next, 0))
    else if s.stage.FlushData? then clean.(stage := WriteRecord(s.stage.next), inflight := Some(sn))
    else clean.(stage := Idle, active := Other(s), acked := sn, inflight := None,
                volume := Volume(true, sn.generation, Flip(s.volume.bank), sn.files))
  }

  ghost predicate FlushOk(s: Sys, t: Sys) {
    Shape(s) && Flushing(s) && t == Flushed(s)
  }

  /** A failed flush persists anything it likes and may drop cached writes. */
  ghost predicate FlushFails(s: Sys, t: Sys) {
    && Shape(s) && Flushing(s)
    && CrashOf(s.durable, s.pending, t.durable)
    && (forall n :: 0 <= n < |t.pending| ==> t.pending[n] in s.pending)
    && t == s.(durable := t.durable, pending := t.pending, stage := Idle, volume := s.volume.(ready := false))
  }

  /** After a crash or mount, a complete in-flight snapshot that is found counts as committed. */
  ghost function Settle(sha: Hash, s: Sys, found: Mount): Sys {
    if s.inflight.Some? && found == Mounted(s.inflight.value, Other(s)) then
      s.(active := Other(s), acked := s.inflight.value, inflight := None)
    else
      s.(inflight := None)
  }

  ghost predicate Crash(sha: Hash, s: Sys, t: Sys) {
    && Shape(s) && CrashOf(s.durable, s.pending, t.durable) && |t.durable| == SECTORS
    && t == Settle(sha, s, Recover(sha, t.durable))
              .(durable := t.durable, pending := [], stage := Idle, volume := s.volume.(ready := false))
  }

  /** The state a mount over the current cache leaves behind. */
  ghost function AfterMount(sha: Hash, s: Sys): Sys
    requires Shape(s)
  {
    match Recover(sha, Cache(s))
    case Refused => s.(volume := s.volume.(ready := false))
    case Mounted(sn, bank) =>
      Settle(sha, s, Mounted(sn, bank)).(volume := Volume(true, sn.generation, bank, sn.files))
  }

  /** The bank the mount would select has already reached the medium. */
  ghost predicate Settled(sha: Hash, s: Sys)
    requires Shape(s)
  {
    var m := Recover(sha, Cache(s));
    m.Mounted? ==> BankAt(sha, s.durable, m.bank).Some?
  }

  ghost predicate Remount(sha: Hash, s: Sys, t: Sys) {
    Shape(s) && s.stage.Idle? && Settled(sha, s) && t == AfterMount(sha, s)
  }

  ghost predicate Step(sha: Hash, s: Sys, t: Sys) {
    || (!t.stage.Idle? && Begin(s, t, t.stage.next))
    || WriteOk(sha, s, t)
    || WriteFails(sha, s, t)
    || FlushOk(s, t)
    || FlushFails(s, t)
    || Crash(sha, s, t)
    || Remount(sha, s, t)
  }

  // -------------------------------------------------------------- invariant

  ghost predicate Quiet(s: Sys, slot: nat) {
    forall n :: 0 <= n < |s.pending| ==> !IsData(slot, s.pending[n].lba)
  }

  /** Byte `k` of the record cannot come out equal to `v`. */
  ghost predicate Misses(s: Sys, lba: nat, k: nat, v: byte)
    requires |s.durable| == SECTORS && lba < SECTORS && k < 512
  {
    && s.durable[lba][k] != v
    && (forall n :: 0 <= n < |s.pending| && s.pending[n].lba == lba ==> s.pending[n].data[k] != v)
  }

  ghost predicate Blank(s: Sys)
    requires |s.durable| == SECTORS
  {
    Misses(s, RecordLba(Other(s)), 0, 83)
  }

  ghost predicate MissingByte(sha: Hash, s: Sys, k: nat)
    requires |s.durable| == SECTORS
  {
    && k < 512
    && Canon(sha, s.durable, Other(s))[k] != 0
    && Misses(s, RecordLba(Other(s)), k, Canon(sha, s.durable, Other(s))[k])
  }

  /** The other bank can only ever come out invalid or older. */
  ghost predicate Harmless(sha: Hash, s: Sys)
    requires |s.durable| == SECTORS
  {
    || Blank(s)
    || (Quiet(s, Other(s)) && HeaderGeneration(s.durable, Other(s)) < s.acked.generation)
    || (Quiet(s, Other(s)) && exists k: nat :: MissingByte(sha, s, k))
  }

  ghost predicate ZeroOr(a: Sector, c: Sector) {
    forall k :: 0 <= k < 512 ==> a[k] == 0 || a[k] == c[k]
  }

  /** The other bank holds all of `sn`; only its record is still in doubt. */
  ghost predicate Sealing(sha: Hash, s: Sys, sn: Snapshot)
    requires |s.durable| == SECTORS
  {
    var lba, c := RecordLba(Other(s)), Canon(sha, s.durable, Other(s));
    && Quiet(s, Other(s))
    && sn.generation == s.acked.generation + 1 && sn.generation <= MAX_U64 && Wf(sn.files)
    && BankBytes(s.durable, Other(s)) == Image(sha, sn.generation, sn.files)
    && ZeroOr(s.durable[lba], c)
    && (forall n :: 0 <= n < |s.pending| && s.pending[n].lba == lba ==> ZeroOr(s.pending[n].data, c))
    && (forall n, m :: 0 <= n < |s.pending| && 0 <= m < |s.pending| && s.pending[n].lba == s.pending[m].lba == lba
          ==> s.pending[n].data == s.pending[m].data)
    && (s.durable[lba] == Zeros(512) ||
        forall n :: 0 <= n < |s.pending| && s.pending[n].lba == lba ==> s.pending[n].data == c)
  }

  ghost predicate ActiveSafe(sha: Hash, s: Sys)
    requires |s.durable| == SECTORS && s.active < 2
  {
    && HeaderOk(sha, s.durable[HEADER])
    && BankAt(sha, s.durable, s.active) == Some(s.acked)
    && (forall n :: 0 <= n < |s.pending| && InBank(s.active, s.pending[n].lba) && s.pending[n].lba < SECTORS
          ==> s.pending[n].lba == RecordLba(s.active) && s.pending[n].data == s.durable[s.pending[n].lba])
  }

  /** What the stage knows about the bank being written. */
  ghost predicate Progress(sha: Hash, s: Sys)
    requires Shape(s)
  {
    var generation := s.volume.generation + 1;
    match s.stage
    case Idle => true
    case Invalidate(next) => s.inflight.None?
    case FlushInvalid(next) => s.inflight.None? && Cache(s)[RecordLba(Other(s))] == Zeros(512)
    case WriteData(next, i) => s.inflight.None? && Blank(s) && i < BANK_SECTORS && Written(sha, s, i)
    case FlushData(next) => s.inflight.None? && Blank(s) && Cache(s)[RecordLba(Other(s))] == Zeros(512) && Written(sha, s, BANK_SECTORS)
    case WriteRecord(next) => s.inflight == Some(Snapshot(generation, next)) && s.pending == [] && s.durable[RecordLba(Other(s))] == Zeros(512)
    case FlushRecord(next) =>
      && s.inflight == Some(Snapshot(generation, next))
      && s.durable[RecordLba(Other(s))] == Zeros(512)
      && Cache(s)[RecordLba(Other(s))] == Canon(sha, s.durable, Other(s))
      && (forall n :: 0 <= n < |s.pending| && s.pending[n].lba == RecordLba(Other(s))
            ==> s.pending[n].data == Canon(sha, s.durable, Other(s)))
  }

  ghost predicate Written(sha: Hash, s: Sys, n: nat)
    requires Shape(s) && !s.stage.Idle?
  {
    && Writable(s.stage.next) && n <= BANK_SECTORS
    && Cache(s)[RecordLba(Other(s))] == Zeros(512)
    && forall i: nat :: i < n ==>
         Cache(s)[DataLba(Other(s), i)] == ImageSector(Image(sha, s.volume.generation + 1, s.stage.next), i)
  }

  ghost predicate Safe(sha: Hash, s: Sys) {
    && Shape(s)
    && ActiveSafe(sha, s)
    && (if s.inflight.None? then Harmless(sha, s) else Sealing(sha, s, s.inflight.value))
  }

  ghost predicate Inv(sha: Hash, s: Sys) {
    && Safe(sha, s)
    && (s.volume.ready ==>
          && s.volume == Volume(true, s.acked.generation, s.active, s.acked.files)
          && (s.stage.Idle? ==> s.inflight.None?))
    && (!s.stage.Idle? ==> s.volume.ready && s.volume.generation < MAX_U64 && Wf(s.stage.next))
    && Progress(sha, s)
  }

  // ----------------------------------------------------- what a crash leaves

  lemma ByteOfSector(d: Disk, pending: seq<Write>, e: Disk, i: nat, k: nat)
    requires CrashOf(d, pending, e) && i < |d| && k < 512
    ensures ByteFrom(d, pending, i, k, e[i][k])
  {
  }

  /** A sector whose pending writes all repeat it cannot change. */
  lemma SectorKept(d: Disk, pending: seq<Write>, e: Disk, i: nat)
    requires CrashOf(d, pending, e) && i < |d|
    requires forall n :: 0 <= n < |pending| && pending[n].lba == i ==> pending[n].data == d[i]
    ensures e[i] == d[i]
  {
    forall k: nat | k < 512
      ensures e[i][k] == d[i][k]
    {
      ByteOfSector(d, pending, e, i, k);
    }
  }

  /** Reading through the cache is one of the things a crash could leave. */
  lemma {:induction false} ViewIsCrash(d: Disk, pending: seq<Write>)
    requires forall n :: 0 <= n < |pending| ==> pending[n].lba < |d|
    ensures CrashOf(d, pending, View(d, pending))
    decreases |pending|
  {
    if pending != [] {
      var last := |pending| - 1;
      var front := pending[..last];
      ViewIsCrash(d, front);
      var v := View(d, pending);
      forall i: nat, k: nat | i < |d| && k < 512
        ensures ByteFrom(d, pending, i, k, v[i][k])
      {
        if i == pending[last].lba {
          assert pending[last].data[k] == v[i][k];
        } else {
          ByteOfSector(d, front, View(d, front), i, k);
          if v[i][k] != d[i][k] {
            var n :| 0 <= n < |front| && front[n].lba == i && front[n].data[k] == v[i][k];
            assert pending[n] == front[n];
          }
        }
      }
    }
  }

  lemma ActiveKept(sha: Hash, s: Sys, e: Disk)
    requires Shape(s) && ActiveSafe(sha, s) && CrashOf(s.durable, s.pending, e)
    ensures e[HEADER] == s.durable[HEADER]
    ensures BankAt(sha, e, s.active) == Some(s.acked)
  {
    SectorKept(s.durable, s.pending, e, HEADER);
    SectorKept(s.durable, s.pending, e, RecordLba(s.active));
    forall i: nat | IsData(s.active, i)
      ensures e[i] == s.durable[i]
    {
      SectorKept(s.durable, s.pending, e, i);
    }
    BankFrame(sha, s.durable, e, s.active);
  }

  lemma DataKept(sha: Hash, s: Sys, e: Disk)
    requires Shape(s) && CrashOf(s.durable, s.pending, e) && Quiet(s, Other(s))
    ensures BankBytes(e, Other(s)) == BankBytes(s.durable, Other(s))
    ensures Canon(sha, e, Other(s)) == Canon(sha, s.durable, Other(s))
  {
    SectorKept(s.durable, s.pending, e, HEADER);
    forall i: nat | IsData(Other(s), i)
      ensures e[i] == s.durable[i]
    {
      SectorKept(s.durable, s.pending, e, i);
    }
    BankFrame(sha, s.durable, e, Other(s));
  }

  lemma MissKept(s: Sys, e: Disk, lba: nat, k: nat, v: byte)
    requires Shape(s) && CrashOf(s.durable, s.pending, e)
    requires lba < SECTORS && k < 512 && Misses(s, lba, k, v)
    ensures e[lba][k] != v
  {
    ByteOfSector(s.durable, s.pending, e, lba, k);
  }

  /** With no snapshot in flight the other bank comes out invalid or older. */
  lemma HarmlessOutcome(sha: Hash, s: Sys, e: Disk)
    requires Shape(s) && Harmless(sha, s) && CrashOf(s.durable, s.pending, e)
    ensures BankAt(sha, e, Other(s)).None? || BankAt(sha, e, Other(s)).value.generation < s.acked.generation
    ensures var t := s.(durable := e, pending := []); Harmless(sha, t)
  {
    var o := Other(s);
    var t := s.(durable := e, pending := []);
    if BankAt(sha, e, o).Some? {
      ValidIsCanonical(sha, e, o);
    }
    if Blank(s) {
      CanonFirstByte(sha, e, o);
      MissKept(s, e, RecordLba(o), 0, 83);
      assert Blank(t);
    } else {
      DataKept(sha, s, e);
      if HeaderGeneration(s.durable, o) >= s.acked.generation {
        var k: nat :| MissingByte(sha, s, k);
        MissKept(s, e, RecordLba(o), k, Canon(sha, s.durable, o)[k]);
        assert MissingByte(sha, t, k);
      }
    }
  }

  /** With a complete bank in flight, that snapshot is what can appear. */
  lemma SealingOutcome(sha: Hash, s: Sys, e: Disk, sn: Snapshot)
    requires Shape(s) && Sealing(sha, s, sn) && CrashOf(s.durable, s.pending, e)
    ensures BankAt(sha, e, Other(s)).None? || BankAt(sha, e, Other(s)) == Some(sn)
    ensures var t := s.(durable := e, pending := []); BankAt(sha, e, Other(s)).None? ==> Harmless(sha, t)
  {
    var o := Other(s);
    DataKept(sha, s, e);
    BuiltBankIsValid(sha, e, o, sn);
    var c := Canon(sha, e, o);
    if BankAt(sha, e, o).Some? {
      ValidIsCanonical(sha, e, o);
    } else {
      var k: nat :| k < 512 && e[RecordLba(o)][k] != c[k];
      ByteOfSector(s.durable, s.pending, e, RecordLba(o), k);
      assert MissingByte(sha, s.(durable := e, pending := []), k);
    }
  }

  /** The choice between a valid bank and a rival that is absent, older or newer. */
  lemma ChooseOutcome(x: Option<Snapshot>, y: Option<Snapshot>, active: nat, acked: Snapshot)
    requires active < 2 && (if active == 0 then x else y) == Some(acked)
    ensures var rival := if active == 0 then y else x;
            && (rival.None? || rival.value.generation < acked.generation ==> Choose(x, y) == Mounted(acked, active))
            && (rival.Some? && rival.value.generation > acked.generation ==> Choose(x, y) == Mounted(rival.value, Flip(active)))
  {
  }

  /** The recovery theorem for one state: every crash yields `acked` or `inflight`. */
  lemma RecoverOutcome(sha: Hash, s: Sys, e: Disk)
    requires Safe(sha, s) && CrashOf(s.durable, s.pending, e)
    ensures |e| == SECTORS
    ensures BankAt(sha, e, s.active) == Some(s.acked) && e[HEADER] == s.durable[HEADER]
    ensures if s.inflight.Some? && BankAt(sha, e, Other(s)).Some?
            then BankAt(sha, e, Other(s)) == s.inflight && Recover(sha, e) == Mounted(s.inflight.value, Other(s))
            else Recover(sha, e) == Mounted(s.acked, s.active)
  {
    hide BankAt;
    ActiveKept(sha, s, e);
    RivalOutcome(sha, s, e);
    ChooseOutcome(BankAt(sha, e, 0), BankAt(sha, e, 1), s.active, s.acked);
  }

  lemma RivalOutcome(sha: Hash, s: Sys, e: Disk)
    requires Safe(sha, s) && CrashOf(s.durable, s.pending, e) && |e| == SECTORS
    ensures var rival := BankAt(sha, e, Other(s));
            || rival.None?
            || (s.inflight.None? && rival.value.generation < s.acked.generation)
            || (s.inflight.Some? && rival == s.inflight && rival.value.generation > s.acked.generation)
  {
    if s.inflight.None? {
      HarmlessOutcome(sha, s, e);
    } else {
      SealingOutcome(sha, s, e, s.inflight.value);
    }
  }

  // ------------------------------------------------------ steps keep Inv

  lemma CrashKeeps(sha: Hash, s: Sys, t: Sys)
    requires Inv(sha, s) && Crash(sha, s, t)
    ensures Inv(sha, t)
    ensures Recover(sha, t.durable) == Mounted(t.acked, t.active)
  {
    hide BankAt, HeaderOk, Image, Canon, BankBytes, Wf, Harmless;
    var e := t.durable;
    RecoverOutcome(sha, s, e);
    if s.inflight.Some? && BankAt(sha, e, Other(s)).Some? {
      SettledInv(sha, s, t);
    } else {
      HarmlessAfter(sha, s, e);
      HarmlessSame(sha, s.(durable := e, pending := []), t);
    }
  }

  lemma HarmlessAfter(sha: Hash, s: Sys, e: Disk)
    requires Inv(sha, s) && CrashOf(s.durable, s.pending, e) && |e| == SECTORS
    requires s.inflight.None? || BankAt(sha, e, Other(s)).None?
    ensures Harmless(sha, s.(durable := e, pending := []))
  {
    if s.inflight.None? {
      HarmlessOutcome(sha, s, e);
    } else {
      SealingOutcome(sha, s, e, s.inflight.value);
    }
  }

  /** The bank just superseded is older, so it is harmless whatever its record. */
  lemma SettledInv(sha: Hash, s: Sys, t: Sys)
    requires |t.durable| == SECTORS && s.active < 2
    requires BankAt(sha, t.durable, s.active) == Some(s.acked)
    requires t.active == Other(s) && t.pending == [] && t.acked.generation > s.acked.generation
    ensures Harmless(sha, t)
  {
    ValidIsCanonical(sha, t.durable, s.active);
    assert Other(t) == s.active;
    assert Quiet(t, Other(t));
  }

  /** `Harmless` reads only the disk, the cache and the acknowledged snapshot. */
  lemma HarmlessSame(sha: Hash, s: Sys, t: Sys)
    requires |s.durable| == SECTORS && Harmless(sha, s)
    requires s.durable == t.durable && s.pending == t.pending && s.active == t.active && s.acked == t.acked
    ensures Harmless(sha, t)
  {
    if !Blank(s) && HeaderGeneration(s.durable, Other(s)) >= s.acked.generation {
      var k: nat :| MissingByte(sha, s, k);
      assert MissingByte(sha, t, k);
    }
  }

  lemma ViewAppend(d: Disk, pending: seq<Write>, w: Write)
    requires forall n :: 0 <= n < |pending| ==> pending[n].lba < |d|
    requires w.lba < |d|
    ensures View(d, pending + [w]) == View(d, pending)[w.lba := w.data]
  {
    assert (pending + [w])[..|pending|] == pending;
  }

  /** Adding a write outside the active bank keeps the active bank safe. */
  lemma ActiveAppend(sha: Hash, s: Sys, w: Write)
    requires Shape(s) && ActiveSafe(sha, s) && HEADER < w.lba < SECTORS && InBank(Other(s), w.lba)
    ensures var t := s.(pending := s.pending + [w]); Shape(t) && ActiveSafe(sha, t)
  {
    assert !InBank(s.active, w.lba);
  }

  /** A record write that misses whatever byte was missing keeps `Harmless`. */
  lemma HarmlessAppend(sha: Hash, s: Sys, w: Write)
    requires Shape(s) && Harmless(sha, s) && w.lba == RecordLba(Other(s))
    requires Mixed(Cache(s)[w.lba], Zeros(512), w.data)
    ensures Harmless(sha, s.(pending := s.pending + [w]))
  {
    var t := s.(pending := s.pending + [w]);
    ViewIsCrash(s.durable, s.pending);
    if Blank(s) {
      MissKept(s, Cache(s), w.lba, 0, 83);
      assert Blank(t);
    } else {
      assert Quiet(t, Other(t));
      if HeaderGeneration(s.durable, Other(s)) >= s.acked.generation {
        var k: nat :| MissingByte(sha, s, k);
        MissKept(s, Cache(s), w.lba, k, Canon(sha, s.durable, Other(s))[k]);
        assert MissingByte(sha, t, k);
      }
    }
  }

  lemma SealingSame(sha: Hash, s: Sys, t: Sys)
    requires Shape(s) && ActiveSafe(sha, s) && s.inflight.Some? && Sealing(sha, s, s.inflight.value)
    requires s.durable == t.durable && s.pending == t.pending && s.active == t.active && s.acked == t.acked
    ensures ActiveSafe(sha, t) && Sealing(sha, t, s.inflight.value)
  {
    hide BankAt, HeaderOk, Image, Canon, BankBytes, Wf;
  }

  lemma InvalidateKeeps(sha: Hash, s: Sys, t: Sys)
    requires Inv(sha, s) && s.stage.Invalidate?
    requires WriteOk(sha, s, t) || WriteFails(sha, s, t)
    ensures Inv(sha, t)
  {
    hide BankAt, HeaderOk, Image, Canon, BankBytes, Wf, Recover, Harmless;
    var w := NextWrite(sha, s);
    if t.pending != s.pending {
      var x := t.pending[|s.pending|];
      assert t.pending == s.pending + [x];
      ActiveAppend(sha, s, x);
      HarmlessAppend(sha, s, x);
      HarmlessSame(sha, s.(pending := t.pending), t);
      ViewAppend(s.durable, s.pending, x);
    } else {
      HarmlessSame(sha, s, t);
    }
  }

  lemma WriteDataKeeps(sha: Hash, s: Sys, t: Sys)
    requires Inv(sha, s) && s.stage.WriteData?
    requires WriteOk(sha, s, t) || WriteFails(sha, s, t)
    ensures Inv(sha, t)
  {
    hide Inv, WriteFails, WriteOk;
    if WriteOk(sha, s, t) {
      DataWritten(sha, s, t);
    } else {
      DataFails(sha, s, t);
    }
  }

  lemma DataWritten(sha: Hash, s: Sys, t: Sys)
    requires Inv(sha, s) && s.stage.WriteData? && WriteOk(sha, s, t)
    ensures Inv(sha, t)
  {
    hide BankAt, HeaderOk, Image, Canon, BankBytes, Wf, Harmless;
    var x := t.pending[|s.pending|];
    assert t.pending == s.pending + [x];
    ActiveAppend(sha, s, x);
    assert Blank(t);
    BlankIsHarmless(sha, t);
    WrittenNext(sha, s, t);
  }

  lemma BlankIsHarmless(sha: Hash, s: Sys)
    requires |s.durable| == SECTORS && Blank(s)
    ensures Harmless(sha, s)
  {
  }

  lemma DataFails(sha: Hash, s: Sys, t: Sys)
    requires Inv(sha, s) && s.stage.WriteData? && WriteFails(sha, s, t)
    ensures Inv(sha, t)
  {
    hide BankAt, HeaderOk, Image, Canon, BankBytes, Wf, Harmless, Written;
    if t.pending != s.pending {
      var x := t.pending[|s.pending|];
      assert t.pending == s.pending + [x];
      ActiveAppend(sha, s, x);
    }
    assert Blank(t);
    BlankIsHarmless(sha, t);
  }

  lemma WrittenNext(sha: Hash, s: Sys, t: Sys)
    requires Shape(s) && s.stage.WriteData? && s.volume.bank == s.active
    requires WriteOk(sha, s, t) && s.stage.i < BANK_SECTORS && Written(sha, s, s.stage.i)
    ensures Shape(t) && Written(sha, t, s.stage.i + 1)
  {
    hide BankAt, HeaderOk, Image, Canon, BankBytes, Recover, Wf, CommitRecord;
    var w := NextWrite(sha, s);
    ViewAppend(s.durable, s.pending, w);
    assert Cache(t) == Cache(s)[w.lba := w.data];
    forall i: nat | i < s.stage.i + 1
      ensures Cache(t)[DataLba(Other(s), i)] == ImageSector(Image(sha, s.volume.generation + 1, s.stage.next), i)
    {
      assert i != s.stage.i ==> DataLba(Other(s), i) != w.lba;
    }
  }

  /** One record write over a complete bank, whole or torn. */
  lemma SealingAppend(sha: Hash, s: Sys, x: Write)
    requires Shape(s) && s.inflight.Some? && Sealing(sha, s, s.inflight.value)
    requires s.pending == [] && s.durable[RecordLba(Other(s))] == Zeros(512)
    requires x.lba == RecordLba(Other(s)) && ZeroOr(x.data, Canon(sha, s.durable, Other(s)))
    ensures Sealing(sha, s.(pending := [x]), s.inflight.value)
  {
  }

  lemma RecordWrite(sha: Hash, s: Sys)
    requires Inv(sha, s) && s.stage.WriteRecord?
    ensures NextWrite(sha, s).lba == RecordLba(Other(s))
    ensures NextWrite(sha, s).data == Canon(sha, s.durable, Other(s))
  {
    BuiltBankIsValid(sha, s.durable, Other(s), s.inflight.value);
  }

  lemma WriteRecordKeeps(sha: Hash, s: Sys, t: Sys)
    requires Inv(sha, s) && s.stage.WriteRecord?
    requires WriteOk(sha, s, t) || WriteFails(sha, s, t)
    ensures Inv(sha, t)
  {
    hide Inv, WriteFails, WriteOk;
    if WriteOk(sha, s, t) {
      RecordWritten(sha, s, t);
    } else {
      RecordFails(sha, s, t);
    }
  }

  lemma RecordWritten(sha: Hash, s: Sys, t: Sys)
    requires Inv(sha, s) && s.stage.WriteRecord? && WriteOk(sha, s, t)
    ensures Inv(sha, t)
  {
    hide ActiveSafe, Sealing, Image, Canon, BankBytes, Wf, Harmless, CommitRecord;
    RecordWrite(sha, s);
    var x := NextWrite(sha, s);
    assert t.pending == s.pending + [x] == [x];
    RecordAppend(sha, s, x);
    ViewAppend(s.durable, s.pending, x);
    SealingSame(sha, s.(pending := t.pending), t);
  }

  lemma RecordFails(sha: Hash, s: Sys, t: Sys)
    requires Inv(sha, s) && s.stage.WriteRecord? && WriteFails(sha, s, t)
    ensures Inv(sha, t)
  {
    hide ActiveSafe, Sealing, Image, Canon, BankBytes, Wf, Harmless, CommitRecord;
    RecordWrite(sha, s);
    if t.pending != s.pending {
      var x := t.pending[0];
      assert t.pending == s.pending + [x] == [x];
      RecordAppend(sha, s, x);
    }
    SealingSame(sha, s.(pending := t.pending), t);
  }

  /** Any mixture of the record with the blank sector before it may reach the cache. */
  lemma RecordAppend(sha: Hash, s: Sys, x: Write)
    requires Inv(sha, s) && s.stage.WriteRecord? && x.lba == RecordLba(Other(s))
    requires ZeroOr(x.data, Canon(sha, s.durable, Other(s)))
    ensures Safe(sha, s.(pending := [x]))
  {
    hide Sealing, Image, Canon, BankBytes, Wf, Harmless, BankAt, HeaderOk;
    assert s.pending + [x] == [x];
    ActiveAppend(sha, s, x);
    SealingAppend(sha, s, x);
  }

  lemma FlushOkInvalid(sha: Hash, s: Sys, t: Sys)
    requires Inv(sha, s) && FlushOk(s, t) && s.stage.FlushInvalid?
    ensures Inv(sha, t)
  {
    hide BankAt, HeaderOk, Image, Canon, BankBytes, Recover;
    ViewIsCrash(s.durable, s.pending);
    ActiveKept(sha, s, t.durable);
    assert Blank(t);
    assert Written(sha, t, 0);
  }

  lemma FlushOkData(sha: Hash, s: Sys, t: Sys)
    requires Inv(sha, s) && FlushOk(s, t) && s.stage.FlushData?
    ensures Inv(sha, t)
  {
    hide BankAt, HeaderOk, Image, Canon, Wf, Recover;
    ViewIsCrash(s.durable, s.pending);
    ActiveKept(sha, s, t.durable);
    ValidIsCanonical(sha, s.durable, s.active);
    SectorsSpellImage(t.durable, Other(s), Image(sha, s.volume.generation + 1, s.stage.next));
    assert Sealing(sha, t, t.inflight.value);
  }

  lemma SectorsSpellImage(d: Disk, slot: nat, b: seq<byte>)
    requires |d| == SECTORS && slot < 2 && |b| == BANK_BYTES
    requires forall i: nat :: i < BANK_SECTORS ==> d[DataLba(slot, i)] == ImageSector(b, i)
    ensures BankBytes(d, slot) == b
  {
    forall k: nat | k < BANK_BYTES
      ensures BankBytes(d, slot)[k] == b[k]
    {
      var i := k / 512;
      assert d[DataLba(slot, i)] == ImageSector(b, i);
      assert ImageSector(b, i)[k % 512] == b[i * 512 + k % 512];
    }
  }

  lemma FlushOkRecord(sha: Hash, s: Sys, t: Sys)
    requires Inv(sha, s) && FlushOk(s, t) && s.stage.FlushRecord?
    ensures Inv(sha, t)
  {
    hide BankAt, HeaderOk, Image, Canon, BankBytes, Wf, Recover, Harmless;
    var e := t.durable;
    ViewIsCrash(s.durable, s.pending);
    ActiveKept(sha, s, e);
    DataKept(sha, s, e);
    BuiltBankIsValid(sha, e, Other(s), s.inflight.value);
    SettledInv(sha, s, t);
  }

  lemma FlushFailsActive(sha: Hash, s: Sys, t: Sys)
    requires Inv(sha, s) && FlushFails(s, t)
    ensures Shape(t) && ActiveSafe(sha, t)
  {
    ActiveKept(sha, s, t.durable);
    forall n | 0 <= n < |t.pending|
      ensures HEADER < t.pending[n].lba < SECTORS
      ensures InBank(s.active, t.pending[n].lba) ==>
                t.pending[n].lba == RecordLba(s.active) && t.pending[n].data == t.durable[t.pending[n].lba]
    {
      var m :| 0 <= m < |s.pending| && s.pending[m] == t.pending[n];
      if InBank(s.active, t.pending[n].lba) {
        SectorKept(s.durable, s.pending, t.durable, RecordLba(s.active));
      }
    }
  }

  lemma MissSubset(s: Sys, t: Sys, lba: nat, k: nat, v: byte)
    requires Shape(s) && CrashOf(s.durable, s.pending, t.durable) && |t.durable| == SECTORS
    requires forall n :: 0 <= n < |t.pending| ==> t.pending[n] in s.pending
    requires lba < SECTORS && k < 512 && Misses(s, lba, k, v)
    ensures Misses(t, lba, k, v)
  {
    MissKept(s, t.durable, lba, k, v);
  }

  lemma FlushFailsHarmless(sha: Hash, s: Sys, t: Sys)
    requires Inv(sha, s) && FlushFails(s, t) && s.inflight.None?
    ensures Harmless(sha, t)
  {
    var o := Other(s);
    if Blank(s) {
      MissSubset(s, t, RecordLba(o), 0, 83);
      assert Blank(t);
    } else {
      DataKept(sha, s, t.durable);
      assert Quiet(t, o);
      if HeaderGeneration(s.durable, o) >= s.acked.generation {
        var k: nat :| MissingByte(sha, s, k);
        MissSubset(s, t, RecordLba(o), k, Canon(sha, s.durable, o)[k]);
        assert MissingByte(sha, t, k);
      }
    }
  }

  lemma FlushFailsSealing(sha: Hash, s: Sys, t: Sys)
    requires Inv(sha, s) && FlushFails(s, t) && s.inflight.Some?
    ensures Sealing(sha, t, s.inflight.value)
  {
    var o := Other(s);
    DataKept(sha, s, t.durable);
    var lba, c := RecordLba(o), Canon(sha, s.durable, o);
    forall k: nat | k < 512
      ensures t.durable[lba][k] == 0 || t.durable[lba][k] == c[k]
    {
      ByteOfSector(s.durable, s.pending, t.durable, lba, k);
    }
    assert forall n :: 0 <= n < |t.pending| && t.pending[n].lba == lba ==> t.pending[n].data == c;
  }

  lemma FlushFailsKeeps(sha: Hash, s: Sys, t: Sys)
    requires Inv(sha, s) && FlushFails(s, t)
    ensures Inv(sha, t)
  {
    hide BankAt, HeaderOk, Image, Canon, BankBytes, Wf, Recover, Harmless, Sealing;
    FlushFailsActive(sha, s, t);
    if s.inflight.None? {
      FlushFailsHarmless(sha, s, t);
    } else {
      FlushFailsSealing(sha, s, t);
    }
  }
}
