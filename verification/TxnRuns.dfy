/** Theorems about whole runs of the transaction store. */
module TxnRuns {
  import opened Bytes
  import opened TxnImage
  import opened TxnDisk
  import opened TxnCrash

  // --------------------------------------------------------------- remounts

  /** A sector reads as its last pending write, or as the medium. */
  lemma {:induction false} ViewOfSame(d: Disk, pending: seq<Write>, lba: nat)
    requires forall n :: 0 <= n < |pending| ==> pending[n].lba < |d|
    requires lba < |d|
    requires forall n, m :: 0 <= n < |pending| && 0 <= m < |pending| && pending[n].lba == pending[m].lba == lba
               ==> pending[n].data == pending[m].data
    ensures forall n :: 0 <= n < |pending| && pending[n].lba == lba ==> View(d, pending)[lba] == pending[n].data
    ensures (forall n :: 0 <= n < |pending| ==> pending[n].lba != lba) ==> View(d, pending)[lba] == d[lba]
    decreases |pending|
  {
    if pending != [] {
      var last := |pending| - 1;
      ViewOfSame(d, pending[..last], lba);
      assert forall n :: 0 <= n < last ==> pending[..last][n] == pending[n];
    }
  }

  /** A complete bank whose record does not read back is harmless from then on. */
  lemma AbandonedIsHarmless(sha: Hash, s: Sys)
    requires Safe(sha, s) && s.inflight.Some?
    requires Cache(s)[RecordLba(Other(s))] != Canon(sha, s.durable, Other(s))
    ensures Harmless(sha, s.(inflight := None))
  {
    hide BankAt, HeaderOk, Image, Canon, BankBytes, Wf;
    var t := s.(inflight := None);
    var lba, c := RecordLba(Other(s)), Canon(sha, s.durable, Other(s));
    ViewOfSame(s.durable, s.pending, lba);
    var r := Cache(s)[lba];
    var k: nat :| k < 512 && r[k] != c[k];
    ViewIsCrash(s.durable, s.pending);
    ByteOfSector(s.durable, s.pending, Cache(s), lba, k);
    assert c[k] != 0;
    if exists n :: 0 <= n < |s.pending| && s.pending[n].lba == lba {
      assert s.durable[lba] == Zeros(512);
    }
    assert MissingByte(sha, t, k);
  }

  lemma RemountKeepsAcked(sha: Hash, s: Sys)
    requires Inv(sha, s) && s.stage.Idle?
    requires Recover(sha, Cache(s)) == Mounted(s.acked, s.active)
    requires s.inflight.Some? ==> BankAt(sha, Cache(s), Other(s)).None?
    ensures Inv(sha, AfterMount(sha, s))
  {
    hide HeaderOk, Image, Wf, Recover, Harmless, Choose;
    var t := AfterMount(sha, s);
    if s.inflight.Some? {
      CacheRecordBroken(sha, s);
      AbandonedIsHarmless(sha, s);
      HarmlessSame(sha, s.(inflight := None), t);
    } else {
      HarmlessSame(sha, s, t);
    }
  }

  lemma CacheRecordBroken(sha: Hash, s: Sys)
    requires Inv(sha, s) && s.inflight.Some?
    requires BankAt(sha, Cache(s), Other(s)).None?
    ensures Cache(s)[RecordLba(Other(s))] != Canon(sha, s.durable, Other(s))
  {
    ViewIsCrash(s.durable, s.pending);
    DataKept(sha, s, Cache(s));
    BuiltBankIsValid(sha, Cache(s), Other(s), s.inflight.value);
  }

  lemma RemountKeepsInflight(sha: Hash, s: Sys)
    requires Inv(sha, s) && s.stage.Idle? && s.inflight.Some?
    requires Recover(sha, Cache(s)) == Mounted(s.inflight.value, Other(s))
    requires BankAt(sha, s.durable, Other(s)).Some?
    ensures Inv(sha, AfterMount(sha, s))
  {
    hide HeaderOk, Image, Wf, Recover, Harmless, Choose, BankAt;
    var t := AfterMount(sha, s);
    DurableInflight(sha, s);
    assert ActiveSafe(sha, t);
    SupersededQuiet(sha, s, t);
  }

  lemma DurableInflight(sha: Hash, s: Sys)
    requires Safe(sha, s) && s.inflight.Some? && BankAt(sha, s.durable, Other(s)).Some?
    ensures BankAt(sha, s.durable, Other(s)) == s.inflight
    ensures forall n :: 0 <= n < |s.pending| && s.pending[n].lba == RecordLba(Other(s))
              ==> s.pending[n].data == s.durable[RecordLba(Other(s))]
  {
    hide Image, Wf;
    var o := Other(s);
    ValidIsCanonical(sha, s.durable, o);
    BuiltBankIsValid(sha, s.durable, o, s.inflight.value);
    CanonFirstByte(sha, s.durable, o);
    assert s.durable[RecordLba(o)][0] != Zeros(512)[0];
  }

  lemma SupersededQuiet(sha: Hash, s: Sys, t: Sys)
    requires Safe(sha, s) && t.durable == s.durable && t.pending == s.pending
    requires t.active == Other(s) && t.acked.generation > s.acked.generation
    ensures Harmless(sha, t)
  {
    hide HeaderOk, Image, Wf;
    ValidIsCanonical(sha, s.durable, s.active);
    assert Other(t) == s.active;
    assert Quiet(t, s.active);
  }

  lemma RemountKeeps(sha: Hash, s: Sys, t: Sys)
    requires Inv(sha, s) && Remount(sha, s, t)
    ensures Inv(sha, t)
    ensures t.volume == Volume(true, t.acked.generation, t.active, t.acked.files)
  {
    hide HeaderOk, Image, Wf, Harmless, Choose, BankAt, Recover;
    ViewIsCrash(s.durable, s.pending);
    RecoverOutcome(sha, s, Cache(s));
    if s.inflight.Some? && BankAt(sha, Cache(s), Other(s)).Some? {
      RemountKeepsInflight(sha, s);
    } else {
      RemountKeepsAcked(sha, s);
    }
  }

  // ------------------------------------------------------------------- runs

  lemma BeginKeeps(sha: Hash, s: Sys, t: Sys)
    requires Inv(sha, s) && !t.stage.Idle? && Begin(s, t, t.stage.next)
    ensures Inv(sha, t)
  {
    hide BankAt, HeaderOk, Image, Wf, Canon, BankBytes, Harmless;
    HarmlessSame(sha, s, t);
  }

  /** Every step of the protocol, whatever fails, keeps the invariant. */
  lemma StepKeeps(sha: Hash, s: Sys, t: Sys)
    requires Inv(sha, s) && Step(sha, s, t)
    ensures Inv(sha, t)
  {
    hide Safe, Progress, Wf;
    if !t.stage.Idle? && Begin(s, t, t.stage.next) {
      BeginKeeps(sha, s, t);
    } else if WriteOk(sha, s, t) || WriteFails(sha, s, t) {
      WriteKeeps(sha, s, t);
    } else if FlushOk(s, t) {
      FlushOkKeeps(sha, s, t);
    } else if FlushFails(s, t) {
      FlushFailsKeeps(sha, s, t);
    } else if Crash(sha, s, t) {
      CrashKeeps(sha, s, t);
    } else {
      RemountKeeps(sha, s, t);
    }
  }

  lemma WriteKeeps(sha: Hash, s: Sys, t: Sys)
    requires Inv(sha, s) && (WriteOk(sha, s, t) || WriteFails(sha, s, t))
    ensures Inv(sha, t)
  {
    hide Inv, NextWrite, AfterWrite;
    if s.stage.Invalidate? {
      InvalidateKeeps(sha, s, t);
    } else if s.stage.WriteData? {
      WriteDataKeeps(sha, s, t);
    } else {
      WriteRecordKeeps(sha, s, t);
    }
  }

  lemma FlushOkKeeps(sha: Hash, s: Sys, t: Sys)
    requires Inv(sha, s) && FlushOk(s, t)
    ensures Inv(sha, t)
  {
    hide Inv;
    if s.stage.FlushInvalid? {
      FlushOkInvalid(sha, s, t);
    } else if s.stage.FlushData? {
      FlushOkData(sha, s, t);
    } else {
      FlushOkRecord(sha, s, t);
    }
  }

  /** A volume as formatted or as any clean shutdown leaves it, not yet mounted. */
  ghost predicate Start(sha: Hash, s: Sys) {
    && |s.durable| == SECTORS && s.pending == [] && s.stage.Idle? && !s.volume.ready && s.inflight.None?
    && s.active < 2 && Recover(sha, s.durable) == Mounted(s.acked, s.active)
    && (s.durable[RecordLba(Other(s))] == Zeros(512) || HeaderGeneration(s.durable, Other(s)) < s.acked.generation)
  }

  ghost predicate Steps(sha: Hash, run: seq<Sys>) {
    |run| > 0 && forall i {:trigger run[i]} :: 0 <= i < |run| - 1 ==> Step(sha, run[i], run[i + 1])
  }

  ghost function Extend(sha: Hash, run: seq<Sys>, t: Sys): (longer: seq<Sys>)
    requires Steps(sha, run) && Step(sha, run[|run| - 1], t)
    ensures Steps(sha, longer) && longer == run + [t]
  {
    run + [t]
  }

  ghost predicate IsRun(sha: Hash, run: seq<Sys>) {
    Steps(sha, run) && Start(sha, run[0])
  }

  lemma StartInv(sha: Hash, s: Sys)
    requires Start(sha, s)
    ensures Inv(sha, s) && s.inflight.None? && s.stage.Idle?
  {
    hide BankAt, Image, Wf;
    assert Quiet(s, Other(s));
    assert s.durable[RecordLba(Other(s))] == Zeros(512) ==> Blank(s);
  }

  lemma {:induction false} StepsInv(sha: Hash, run: seq<Sys>, i: nat)
    requires Steps(sha, run) && Inv(sha, run[0]) && i < |run|
    ensures Inv(sha, run[i])
  {
    hide Inv, Step;
    if i > 0 {
      StepsInv(sha, run, i - 1);
      StepKeeps(sha, run[i - 1], run[i]);
    }
  }

  /**
   Crash safety. At every point of every run, whatever the crash keeps, a mount
   finds exactly the last acknowledged snapshot or the one in flight; it is never
   refused, so two valid banks never carry the same generation.
   */
  lemma EveryCrashRecovers(sha: Hash, run: seq<Sys>, i: nat, e: Disk)
    requires IsRun(sha, run) && i < |run| && CrashOf(run[i].durable, run[i].pending, e)
    ensures |e| == SECTORS
    ensures || Recover(sha, e) == Mounted(run[i].acked, run[i].active)
            || (run[i].inflight.Some? && Recover(sha, e) == Mounted(run[i].inflight.value, Other(run[i])))
  {
    hide Start, Recover, Safe, BankAt;
    StartInv(sha, run[0]);
    StepsInv(sha, run, i);
    RecoverOutcome(sha, run[i], e);
  }

  /** Two valid banks of a reachable disk have different generations. */
  lemma GenerationsDiffer(sha: Hash, run: seq<Sys>, i: nat, e: Disk)
    requires IsRun(sha, run) && i < |run| && CrashOf(run[i].durable, run[i].pending, e)
    ensures |e| == SECTORS
    ensures BankAt(sha, e, 0).Some? && BankAt(sha, e, 1).Some? ==>
              BankAt(sha, e, 0).value.generation != BankAt(sha, e, 1).value.generation
  {
    hide Start, Safe, BankAt, Inv;
    EveryCrashRecovers(sha, run, i, e);
  }

  /** The acknowledged snapshot is only ever replaced by the one in flight. */
  lemma AckedStep(sha: Hash, s: Sys, t: Sys)
    requires Inv(sha, s) && Step(sha, s, t)
    ensures t.acked == s.acked || (s.inflight == Some(t.acked) && t.acked.generation == s.acked.generation + 1)
    ensures t.inflight.None? || t.inflight == s.inflight
         || (s.stage.FlushData? && t.inflight == Some(Snapshot(s.acked.generation + 1, s.stage.next)))
  {
    hide Harmless, ActiveSafe, Recover, Cache, CrashOf, NextWrite, Mixed, Settled, Wf, Image, Canon, BankBytes, Written, Blank;
  }

  /** An acknowledged commit is never lost and never replaced by an older one. */
  lemma {:induction false} AckedMonotone(sha: Hash, run: seq<Sys>, i: nat, j: nat)
    requires IsRun(sha, run) && i <= j < |run|
    ensures run[j].acked == run[i].acked || run[j].acked.generation > run[i].acked.generation
  {
    hide Start, Inv, Step;
    if i < j {
      AckedMonotone(sha, run, i, j - 1);
      StartInv(sha, run[0]);
      StepsInv(sha, run, j - 1);
      AckedStep(sha, run[j - 1], run[j]);
    }
  }

  // ------------------------------------------------- what clients can rely on

  predicate Begins(s: Sys, t: Sys) { s.stage.Idle? && !t.stage.Idle? }

  /** Every commit the run begins goes from table `files` to table `next`. */
  ghost predicate OnlyBegins(run: seq<Sys>, files: seq<File>, next: seq<File>) {
    forall k {:trigger run[k]} :: 0 <= k < |run| - 1 && Begins(run[k], run[k + 1]) ==>
      run[k].volume.files == files && run[k + 1].stage.next == next
  }

  lemma ExtendBegins(run: seq<Sys>, t: Sys, files: seq<File>, next: seq<File>)
    requires run != [] && OnlyBegins(run, files, next)
    requires Begins(run[|run| - 1], t) ==> run[|run| - 1].volume.files == files && t.stage.next == next
    ensures OnlyBegins(run + [t], files, next)
  {
    var longer := run + [t];
    forall k {:trigger longer[k]} | 0 <= k < |longer| - 1 && Begins(longer[k], longer[k + 1])
      ensures longer[k].volume.files == files && longer[k + 1].stage.next == next
    {
      assert k < |run| - 1 ==> run[k] == longer[k] && run[k + 1] == longer[k + 1];
    }
  }

  ghost predicate Everywhere(P: seq<File> -> bool, s: Sys) {
    && P(s.acked.files)
    && (s.inflight.Some? ==> P(s.inflight.value.files))
    && (!s.stage.Idle? ==> P(s.stage.next))
  }

  lemma NextStep(sha: Hash, s: Sys, t: Sys)
    requires Inv(sha, s) && Step(sha, s, t) && !t.stage.Idle?
    ensures Begins(s, t) || (!s.stage.Idle? && t.stage.next == s.stage.next)
  {
    hide Inv, Recover, Cache, CrashOf, NextWrite, Mixed, Settled, Wf, Image;
  }

  /**
   If no commit begun between two points of a run turns a table satisfying `P`
   into one that does not, every snapshot any crash can expose keeps `P`.
   */
  lemma {:induction false} RunKeeps(sha: Hash, run: seq<Sys>, P: seq<File> -> bool, i: nat, j: nat)
    requires IsRun(sha, run) && i <= j < |run| && Everywhere(P, run[i])
    requires forall k {:trigger run[k]} :: i <= k < j && Begins(run[k], run[k + 1]) && P(run[k].volume.files)
               ==> P(run[k + 1].stage.next)
    ensures Everywhere(P, run[j])
    decreases j - i
  {
    hide Start, Step, Safe, Progress;
    if i < j {
      RunKeeps(sha, run, P, i, j - 1);
      StartInv(sha, run[0]);
      StepsInv(sha, run, j - 1);
      var s, t := run[j - 1], run[j];
      AckedStep(sha, s, t);
      if !t.stage.Idle? {
        NextStep(sha, s, t);
        BeginsReady(sha, s, t);
      }
    }
  }

  lemma BeginsReady(sha: Hash, s: Sys, t: Sys)
    requires Inv(sha, s) && Step(sha, s, t)
    ensures Begins(s, t) ==>
              && s.volume.ready && s.volume.files == s.acked.files
              && s.inflight.None? && t.inflight.None? && t.acked == s.acked
  {
    hide Safe, Progress, Recover, Cache, CrashOf, NextWrite, Mixed, Settled, Wf, Image;
  }

  ghost predicate Preorder(R: (seq<File>, seq<File>) -> bool) {
    (forall a :: R(a, a)) && (forall a, b, c :: R(a, b) && R(b, c) ==> R(a, c))
  }

  ghost predicate Related(R: (seq<File>, seq<File>) -> bool, first: seq<File>, s: Sys) {
    && R(first, s.acked.files)
    && (s.inflight.Some? ==> R(s.acked.files, s.inflight.value.files))
    && (!s.stage.Idle? ==> R(s.acked.files, s.stage.next))
  }

  ghost predicate Climbing(R: (seq<File>, seq<File>) -> bool, run: seq<Sys>) {
    && Preorder(R)
    && forall k {:trigger run[k]} :: 0 <= k < |run| - 1 && Begins(run[k], run[k + 1]) ==>
         R(run[k].volume.files, run[k + 1].stage.next)
  }

  lemma {:induction false} RunRelated(sha: Hash, run: seq<Sys>, R: (seq<File>, seq<File>) -> bool, i: nat)
    requires IsRun(sha, run) && i < |run| && Climbing(R, run)
    ensures Related(R, run[0].acked.files, run[i])
  {
    hide Start, Step, Inv, Preorder;
    StartInv(sha, run[0]);
    if i > 0 {
      RunRelated(sha, run, R, i - 1);
      StepsInv(sha, run, i - 1);
      assert Begins(run[i - 1], run[i]) ==> R(run[i - 1].volume.files, run[i].stage.next);
      ClimbStep(sha, R, run[0].acked.files, run[i - 1], run[i]);
    } else {
      assert R(run[0].acked.files, run[0].acked.files) by { Reflexive(R, run[0].acked.files); }
    }
  }

  lemma Reflexive(R: (seq<File>, seq<File>) -> bool, a: seq<File>)
    requires Preorder(R)
    ensures R(a, a)
  {
  }

  lemma Transitive(R: (seq<File>, seq<File>) -> bool, a: seq<File>, b: seq<File>, c: seq<File>)
    requires Preorder(R) && R(a, b) && R(b, c)
    ensures R(a, c)
  {
  }

  /** If every commit moves up a preorder, so does the acknowledged snapshot. */
  lemma {:induction false} RunClimbs(sha: Hash, run: seq<Sys>, R: (seq<File>, seq<File>) -> bool, i: nat, j: nat)
    requires IsRun(sha, run) && i <= j < |run| && Climbing(R, run)
    ensures R(run[i].acked.files, run[j].acked.files)
    decreases j - i
  {
    hide Start, Step, Inv, Preorder;
    if i < j {
      var a, b, c := run[i].acked.files, run[j - 1].acked.files, run[j].acked.files;
      RunClimbs(sha, run, R, i, j - 1);
      RunRelated(sha, run, R, j - 1);
      StartInv(sha, run[0]);
      StepsInv(sha, run, j - 1);
      AckedStep(sha, run[j - 1], run[j]);
      Reflexive(R, b);
      Transitive(R, a, b, c);
    } else {
      Reflexive(R, run[i].acked.files);
    }
  }

  lemma ClimbStep(sha: Hash, R: (seq<File>, seq<File>) -> bool, first: seq<File>, s: Sys, t: Sys)
    requires Inv(sha, s) && Step(sha, s, t) && Preorder(R) && Related(R, first, s)
    requires Begins(s, t) ==> R(s.volume.files, t.stage.next)
    ensures Related(R, first, t)
  {
    hide Inv, Step;
    AckedStep(sha, s, t);
    InflightStep(sha, s, t);
    if !t.stage.Idle? {
      NextStep(sha, s, t);
      BeginsReady(sha, s, t);
    }
  }

  /** A snapshot stays in flight, or a commit in progress, only for the table it extends. */
  lemma InflightStep(sha: Hash, s: Sys, t: Sys)
    requires Inv(sha, s) && Step(sha, s, t)
    ensures t.inflight.Some? || !t.stage.Idle? ==> t.acked == s.acked
  {
    hide Harmless, Sealing, ActiveSafe, Recover, Cache, CrashOf, NextWrite, Mixed, Settled, Wf, Image, Progress;
  }

  /** The same guarantee stated about what a mount after the crash returns. */
  lemma CrashExposes(sha: Hash, run: seq<Sys>, P: seq<File> -> bool, i: nat, j: nat, e: Disk)
    requires IsRun(sha, run) && i <= j < |run| && Everywhere(P, run[i])
    requires forall k {:trigger run[k]} :: i <= k < j && Begins(run[k], run[k + 1]) && P(run[k].volume.files)
               ==> P(run[k + 1].stage.next)
    requires CrashOf(run[j].durable, run[j].pending, e)
    ensures |e| == SECTORS && Recover(sha, e).Mounted? && P(Recover(sha, e).snapshot.files)
  {
    hide Start, Recover, Step;
    RunKeeps(sha, run, P, i, j);
    EveryCrashRecovers(sha, run, j, e);
  }

  // ------------------------------------------- remounting over a live cache

  /** Every crash after every continuation of `s` leaves something to mount. */
  ghost predicate NeverStranded(sha: Hash, s: Sys) {
    forall run: seq<Sys>, e: Disk ::
      Steps(sha, run) && run[0] == s && CrashOf(run[|run| - 1].durable, run[|run| - 1].pending, e) && |e| == SECTORS
      ==> Recover(sha, e).Mounted?
  }

  lemma NeverStrandedFromInv(sha: Hash, s: Sys)
    requires Inv(sha, s)
    ensures NeverStranded(sha, s)
  {
    hide Inv, Step, CrashOf, Recover;
    forall run: seq<Sys>, e: Disk |
      Steps(sha, run) && run[0] == s && CrashOf(run[|run| - 1].durable, run[|run| - 1].pending, e) && |e| == SECTORS
      ensures Recover(sha, e).Mounted?
    {
      StepsInv(sha, run, |run| - 1);
      InvMounts(sha, run[|run| - 1], e);
    }
  }

  lemma InvMounts(sha: Hash, s: Sys, e: Disk)
    requires Inv(sha, s) && CrashOf(s.durable, s.pending, e)
    ensures |e| == SECTORS && Recover(sha, e).Mounted?
  {
    hide Safe, Recover, BankAt;
    RecoverOutcome(sha, s, e);
  }

  /** Zeroing the only durable bank's record leaves nothing to mount. */
  lemma ZeroedIsRefused(sha: Hash, d: Disk, active: nat)
    requires |d| == SECTORS && active < 2 && BankAt(sha, d, Flip(active)).None?
    ensures Recover(sha, d[RecordLba(active) := Zeros(512)]).Refused?
  {
    hide Decode, HeaderOk;
    var e := d[RecordLba(active) := Zeros(512)];
    BankFrame(sha, d, e, Flip(active));
    if BankAt(sha, e, active).Some? {
      ValidIsCanonical(sha, e, active);
      CanonFirstByte(sha, e, active);
      assert false;
    }
  }

  /** Starting the next commit over an unsettled cache can destroy both banks. */
  lemma UnsettledIsStranded(sha: Hash, s: Sys)
    requires Inv(sha, s) && s.stage.Idle? && !Settled(sha, s)
    requires Recover(sha, Cache(s)).snapshot.generation < MAX_U64
    ensures !NeverStranded(sha, AfterMount(sha, s))
  {
    hide BankAt, HeaderOk, Image, Canon, BankBytes, Recover;
    ViewIsCrash(s.durable, s.pending);
    RecoverOutcome(sha, s, Cache(s));
    var m := AfterMount(sha, s);
    var sn := s.inflight.value;
    var first := m.(stage := Invalidate(sn.files));
    var w := NextWrite(sha, first);
    var second := first.(pending := first.pending + [w], stage := FlushInvalid(sn.files));
    assert Begin(m, first, first.stage.next);
    assert WriteOk(sha, first, second);
    var run := [m, first, second];
    assert Steps(sha, run);
    var e := s.durable[RecordLba(s.active) := Zeros(512)];
    assert w == Write(RecordLba(s.active), Zeros(512));
    LastWriteKept(second.durable, first.pending, w);
    ZeroedIsRefused(sha, s.durable, s.active);
    assert run[|run| - 1] == second;
  }

  lemma LastWriteKept(d: Disk, pending: seq<Write>, w: Write)
    requires w.lba < |d|
    ensures CrashOf(d, pending + [w], d[w.lba := w.data])
  {
    var all, e := pending + [w], d[w.lba := w.data];
    forall i: nat, k: nat | i < |d| && k < 512
      ensures ByteFrom(d, all, i, k, e[i][k])
    {
      assert all[|pending|] == w;
    }
  }

  /** The unsafe case is real: it is what a failed final flush leaves in the cache. */
  lemma FailedFinalFlush(sha: Hash, s: Sys)
    requires Inv(sha, s) && s.stage.FlushRecord?
    ensures var t := s.(stage := Idle, volume := s.volume.(ready := false));
            FlushFails(s, t) && Step(sha, s, t) && !Settled(sha, t)
  {
    hide Image, Wf, HeaderOk, Recover, BankAt, Canon;
    var t := s.(stage := Idle, volume := s.volume.(ready := false));
    assert FlushFails(s, t);
    ViewIsCrash(s.durable, s.pending);
    RecoverOutcome(sha, s, Cache(s));
    FinalRecordReads(sha, s);
    if BankAt(sha, s.durable, Other(s)).Some? {
      ValidIsCanonical(sha, s.durable, Other(s));
      CanonFirstByte(sha, s.durable, Other(s));
      assert false;
    }
  }

  lemma FinalRecordReads(sha: Hash, s: Sys)
    requires Inv(sha, s) && s.stage.FlushRecord?
    ensures BankAt(sha, Cache(s), Other(s)) == s.inflight
  {
    ViewIsCrash(s.durable, s.pending);
    DataKept(sha, s, Cache(s));
    BuiltBankIsValid(sha, Cache(s), Other(s), s.inflight.value);
  }

  /**
   Mounting without a power cycle after a failed commit is safe exactly when the
   bank it selects is already on the medium. Otherwise the very next commit and a
   crash can leave no valid bank, losing acknowledged data.
   */
  lemma LiveRemountExact(sha: Hash, s: Sys)
    requires Inv(sha, s) && s.stage.Idle?
    requires Recover(sha, Cache(s)).Mounted? ==> Recover(sha, Cache(s)).snapshot.generation < MAX_U64
    ensures Settled(sha, s) <==> NeverStranded(sha, AfterMount(sha, s))
  {
    hide ActiveSafe, Harmless, Sealing, Progress, AfterMount, Recover, BankAt, NeverStranded;
    if Settled(sha, s) {
      RemountKeeps(sha, s, AfterMount(sha, s));
      NeverStrandedFromInv(sha, AfterMount(sha, s));
    } else {
      UnsettledIsStranded(sha, s);
    }
  }

  /** With nothing cached, as after a power cycle, a mount selects what is on the medium. */
  lemma EmptyCacheIsSettled(sha: Hash, s: Sys)
    requires Shape(s) && s.pending == []
    ensures Settled(sha, s)
  {
    hide BankAt;
  }

  /** The state after the cache has been written back. */
  ghost function WrittenBack(s: Sys): Sys
    requires Shape(s)
  {
    s.(durable := Cache(s), pending := [])
  }

  /** What a caller can do about it: write the cache back, then mount. That is always safe. */
  lemma FlushThenMount(sha: Hash, s: Sys)
    requires Inv(sha, s) && s.stage.Idle?
    ensures Settled(sha, WrittenBack(s)) && NeverStranded(sha, AfterMount(sha, WrittenBack(s)))
  {
    hide ActiveSafe, Harmless, Sealing, Recover, NeverStranded;
    var f := WrittenBack(s);
    var t := Settle(sha, s, Recover(sha, f.durable)).(durable := f.durable, pending := [], volume := s.volume.(ready := false));
    ViewIsCrash(s.durable, s.pending);
    assert Crash(sha, s, t);
    CrashKeeps(sha, s, t);
    EmptyCacheIsSettled(sha, f);
    EmptyCacheIsSettled(sha, t);
    assert Cache(f) == f.durable && Cache(t) == f.durable;
    RemountKeeps(sha, t, AfterMount(sha, t));
    assert AfterMount(sha, f) == AfterMount(sha, t);
    NeverStrandedFromInv(sha, AfterMount(sha, f));
  }

  // ------------------------------------------- the unsafe case is reachable

  lemma WriteNext(sha: Hash, run: seq<Sys>) returns (longer: seq<Sys>)
    requires Steps(sha, run) && Inv(sha, run[0]) && Writing(run[|run| - 1])
    ensures Steps(sha, longer) && Inv(sha, longer[0]) && |longer| == |run| + 1 && longer[0] == run[0]
    ensures longer[|run|].stage == AfterWrite(run[|run| - 1].stage) && longer[|run|].acked == run[|run| - 1].acked
  {
    hide Safe, Progress, Step;
    var s := run[|run| - 1];
    StepsInv(sha, run, |run| - 1);
    WfWritable(s.stage.next);
    assert Shape(s) && s.active < 2 by { SafeShape(sha, s); }
    var t := s.(pending := s.pending + [NextWrite(sha, s)], stage := AfterWrite(s.stage));
    WriteIsStep(sha, s, t);
    longer := Extend(sha, run, t);
  }

  lemma SafeShape(sha: Hash, s: Sys)
    requires Safe(sha, s)
    ensures Shape(s) && s.active < 2
  {
  }

  lemma WriteIsStep(sha: Hash, s: Sys, t: Sys)
    requires WriteOk(sha, s, t)
    ensures Step(sha, s, t)
  {
  }

  lemma FlushIsStep(sha: Hash, s: Sys, t: Sys)
    requires FlushOk(s, t)
    ensures Step(sha, s, t)
  {
  }

  lemma FlushNext(sha: Hash, run: seq<Sys>) returns (longer: seq<Sys>)
    requires Steps(sha, run) && Inv(sha, run[0])
    requires run[|run| - 1].stage.FlushInvalid? || run[|run| - 1].stage.FlushData?
    ensures Steps(sha, longer) && Inv(sha, longer[0]) && |longer| == |run| + 1 && longer[0] == run[0]
    ensures longer[|run|].acked == run[|run| - 1].acked
    ensures var st := run[|run| - 1].stage;
            longer[|run|].stage == if st.FlushInvalid? then WriteData(st.next, 0) else WriteRecord(st.next)
  {
    hide Safe, Progress, Step;
    var s := run[|run| - 1];
    StepsInv(sha, run, |run| - 1);
    SafeShape(sha, s);
    FlushIsStep(sha, s, Flushed(s));
    longer := Extend(sha, run, Flushed(s));
  }

  lemma {:induction false} WriteAllData(sha: Hash, run: seq<Sys>) returns (longer: seq<Sys>)
    requires Steps(sha, run) && Inv(sha, run[0])
    requires run[|run| - 1].stage.WriteData? && run[|run| - 1].stage.i < BANK_SECTORS
    ensures Steps(sha, longer) && Inv(sha, longer[0]) && longer[0] == run[0]
    ensures longer[|longer| - 1].stage == FlushData(run[|run| - 1].stage.next)
    ensures longer[|longer| - 1].acked == run[|run| - 1].acked
    decreases BANK_SECTORS - run[|run| - 1].stage.i
  {
    hide Inv, Step;
    longer := WriteNext(sha, run);
    if longer[|run|].stage.WriteData? {
      longer := WriteAllData(sha, longer);
    }
  }

  /** From any starting volume, a commit of any table gets as far as its last flush. */
  lemma ReachesLastFlush(sha: Hash, s: Sys, next: seq<File>) returns (run: seq<Sys>)
    requires Start(sha, s) && s.acked.generation < MAX_U64 && Wf(next)
    ensures IsRun(sha, run) && run[0] == s
    ensures run[|run| - 1].stage == FlushRecord(next) && run[|run| - 1].acked == s.acked
  {
    hide ActiveSafe, Harmless, Sealing, Progress, Recover, Step, Wf;
    StartInv(sha, s);
    run := Mounts(sha, s);
    var m := run[1];
    var b := m.(stage := Invalidate(next));
    BeginIsStep(sha, m, b);
    run := Extend(sha, run, b);
    run := WriteNext(sha, run);
    run := FlushNext(sha, run);
    run := WriteAllData(sha, run);
    run := FlushNext(sha, run);
    run := WriteNext(sha, run);
  }

  lemma BeginIsStep(sha: Hash, s: Sys, t: Sys)
    requires !t.stage.Idle? && Begin(s, t, t.stage.next)
    ensures Step(sha, s, t)
  {
  }

  lemma Mounts(sha: Hash, s: Sys) returns (run: seq<Sys>)
    requires Start(sha, s)
    ensures Steps(sha, run) && |run| == 2 && run[0] == s
    ensures run[1].acked == s.acked && run[1].stage.Idle? && run[1].volume.ready
    ensures run[1].volume.generation == s.acked.generation
  {
    hide ActiveSafe, Harmless, Sealing, Recover;
    StartInv(sha, s);
    EmptyCacheIsSettled(sha, s);
    var m := AfterMount(sha, s);
    RemountKeeps(sha, s, m);
    assert Remount(sha, s, m);
    run := [s, m];
  }

  /**
   The unsafe case is reachable from every volume: a commit whose last flush fails
   leaves a cache over which mounting again can lose everything.
   */
  lemma StrandingIsReachable(sha: Hash, s: Sys, next: seq<File>) returns (run: seq<Sys>)
    requires Start(sha, s) && s.acked.generation + 1 < MAX_U64 && Wf(next)
    ensures IsRun(sha, run) && run[0] == s
    ensures var t := run[|run| - 1];
            && Shape(t) && t.stage.Idle? && t.acked == s.acked && !Settled(sha, t)
            && !NeverStranded(sha, AfterMount(sha, t))
  {
    hide ActiveSafe, Harmless, Sealing, Recover, Start, Step, Settled, NeverStranded, Wf;
    run := ReachesLastFlush(sha, s, next);
    var u := run[|run| - 1];
    StartInv(sha, s);
    StepsInv(sha, run, |run| - 1);
    FailedFinalFlush(sha, u);
    var t := u.(stage := Idle, volume := u.volume.(ready := false));
    run := Extend(sha, run, t);
    StepsInv(sha, run, |run| - 1);
    NextGeneration(sha, t);
    UnsettledIsStranded(sha, t);
  }

  lemma NextGeneration(sha: Hash, s: Sys)
    requires Inv(sha, s) && s.acked.generation + 1 < MAX_U64
    ensures Recover(sha, Cache(s)).Mounted? && Recover(sha, Cache(s)).snapshot.generation < MAX_U64
  {
    hide BankAt, Recover, HeaderOk, Image, Canon, BankBytes, Wf;
    ViewIsCrash(s.durable, s.pending);
    RecoverOutcome(sha, s, Cache(s));
  }
}
