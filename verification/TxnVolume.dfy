/** The transaction volume as its service runs it, over a failing block device. */
module TxnVolume {
  import opened Bytes
  import opened TxnImage
  import opened TxnDisk
  import opened TxnTable
  import TC = TxnCrash
  import TR = TxnRuns

  /** A block device with a volatile write cache; any operation may fail. */
  class BlockDevice {
    var durable: Disk
    var pending: seq<Write>

    ghost predicate Valid()
      reads this
    {
      |durable| == SECTORS && forall n :: 0 <= n < |pending| ==> HEADER < pending[n].lba < SECTORS
    }

    method Read(lba: nat) returns (ok: bool, s: Sector)
      requires Valid() && lba < SECTORS
      ensures ok ==> s == TC.View(durable, pending)[lba]
    {
      ok := *;
      s := TC.View(durable, pending)[lba];
    }

    method WriteSector(lba: nat, s: Sector) returns (ok: bool)
      requires Valid() && HEADER < lba < SECTORS
      modifies this
      ensures Valid() && durable == old(durable)
      ensures ok ==> pending == old(pending) + [Write(lba, s)]
      ensures !ok ==>
                || pending == old(pending)
                || (|pending| == |old(pending)| + 1 && pending[..|old(pending)|] == old(pending)
                    && pending[|old(pending)|].lba == lba
                    && TC.Mixed(TC.View(old(durable), old(pending))[lba], s, pending[|old(pending)|].data))
    {
      ok := *;
      var reached := *;
      if ok || reached {
        pending := pending + [Write(lba, s)];
      }
    }

    method Flush() returns (ok: bool)
      requires Valid()
      modifies this
      ensures Valid()
      ensures ok ==> durable == TC.View(old(durable), old(pending)) && pending == []
      ensures !ok ==> TC.CrashOf(old(durable), old(pending), durable)
      ensures !ok ==> forall n :: 0 <= n < |pending| ==> pending[n] in old(pending)
    {
      ok := *;
      TC.ViewIsCrash(durable, pending);
      var reached := *;
      if ok || reached {
        durable := TC.View(durable, pending);
      }
      if ok {
        pending := [];
      }
    }
  }

  /** `bytes` bytes of a caller's buffer; a longer request is refused before it is read. */
  function Taken(a: seq<byte>, bytes: nat): (s: seq<byte>)
    ensures |s| == bytes && (bytes <= |a| ==> s == a[..bytes])
  {
    if bytes <= |a| then a[..bytes] else Zeros(bytes)
  }

  ghost function Arrays(data: seq<array<byte>>): (s: seq<seq<byte>>)
    reads data
    ensures |s| == |data| && forall n :: 0 <= n < |data| ==> s[n] == data[n][..]
  {
    seq(|data|, n requires 0 <= n < |data| reads data => data[n][..])
  }

  function Updates(paths: seq<seq<byte>>, data: seq<seq<byte>>, bytes: seq<nat>): (u: seq<Update>)
    requires |paths| == |data| == |bytes|
    ensures |u| == |paths| && forall n :: 0 <= n < |u| ==> u[n] == Update(paths[n], Taken(data[n], bytes[n]))
  {
    seq(|paths|, n requires 0 <= n < |paths| => Update(paths[n], Taken(data[n], bytes[n])))
  }

  function Resized(was: seq<byte>, bytes: nat): (s: seq<byte>)
    ensures |s| == bytes && forall k :: 0 <= k < bytes ==> s[k] == if k < |was| then was[k] else 0
  {
    if bytes <= |was| then was[..bytes] else was + Zeros(bytes - |was|)
  }

  class Store {
    const sha: Hash
    const dev: BlockDevice
    const buffer: array<byte>
    var ready: bool
    var generation: nat
    var bank: nat
    var volume: seq<byte>
    var files: seq<File>
    var next: seq<File>

    ghost predicate Valid()
      reads this, dev
    {
      && dev.Valid() && buffer.Length == BANK_BYTES && |next| == FILES
      && (ready ==> Wf(files) && 1 <= generation <= MAX_U64 && bank < 2 && volume == VolumeId(dev.durable[HEADER]))
    }

    constructor (sha: Hash, dev: BlockDevice)
      requires dev.Valid()
      ensures Valid() && !ready && fresh(buffer) && this.sha == sha && this.dev == dev
    {
      this.sha := sha;
      this.dev := dev;
      this.buffer := new byte[BANK_BYTES];
      this.ready := false;
      this.generation := 0;
      this.bank := 0;
      this.volume := [];
      this.files := [];
      this.next := seq(FILES, _ => EMPTY);
    }

    method CopyInto(at: nat, s: seq<byte>)
      requires at + |s| <= buffer.Length
      modifies buffer
      ensures forall k :: 0 <= k < buffer.Length ==>
                buffer[k] == if at <= k < at + |s| then s[k - at] else old(buffer[k])
    {
      forall k | 0 <= k < |s| {
        buffer[at + k] := s[k];
      }
    }

    /** Reads the table in `buffer` under one geometry into `next`. */
    method DecodeBank(generation: nat, g: Geometry) returns (ok: bool)
      requires buffer.Length == BANK_BYTES && Fits(g)
      modifies `next
      ensures |next| == FILES || next == old(next)
      ensures ok == Decode(sha, buffer[..], generation, g).Some?
      ensures ok ==> next == Decode(sha, buffer[..], generation, g).value
    {
      hide Record, AllZero, LeVal, Path, Length, FileAt, Accepted;
      var b := buffer[..];
      if b[..8] != BANK_MAGIC || LeVal(b[8..16]) != generation || LeVal(b[16..20]) > g.slots || !AllZero(b[20..512]) {
        return false;
      }
      var count := LeVal(b[16..20]);
      next := seq(FILES, _ => EMPTY);
      for i := 0 to g.slots
        invariant |next| == FILES
        invariant forall j :: 0 <= j < i ==> Accepted(sha, b, g, j)
        invariant forall j :: 0 <= j < FILES ==> next[j] == if j < i then FileAt(b, g, j) else EMPTY
        invariant forall j :: 0 <= j < i && j < count ==> next[j].path == Path(Entry(b, j))
        invariant forall j, k :: 0 <= j < k < i && k < count ==> Path(Entry(b, j)) != Path(Entry(b, k))
      {
        var e, d := Entry(b, i), Slot(b, i, g.dataStart);
        RowIs(sha, b, g, i);
        if i >= count {
          if !AllZero(e) || !AllZero(d) {
            return false;
          }
        } else {
          if !Record(sha, e, d) {
            return false;
          }
          var clash := HasPath(next, i, Path(e));
          if clash {
            assert !Accepts(sha, b, generation, g);
            return false;
          }
          next := next[i := File(Path(e), d[..Length(e)])];
        }
      }
      forall j | g.slots <= j < FILES
        ensures FileAt(b, g, j) == EMPTY
      {
        PastSlots(b, g, j);
      }
      ok := AllZero(b[g.dataStart + g.slots * FILE_BYTES..]);
      assert ok ==> next == Decode(sha, b, generation, g).value;
    }

    method ReadBank(slot: nat) returns (ok: bool)
      requires dev.Valid() && buffer.Length == BANK_BYTES && slot < 2
      modifies buffer
      ensures ok ==> buffer[..] == BankBytes(TC.View(dev.durable, dev.pending), slot)
    {
      ghost var all := BankBytes(TC.View(dev.durable, dev.pending), slot);
      for i := 0 to BANK_SECTORS
        invariant forall k :: 0 <= k < i * 512 ==> buffer[k] == all[k]
      {
        var s: Sector;
        ok, s := dev.Read(DataLba(slot, i));
        if !ok {
          return;
        }
        CopyInto(i * 512, s);
        forall k | i * 512 <= k < (i + 1) * 512
          ensures all[k] == s[k - i * 512]
        {
          assert k / 512 == i && k % 512 == k - i * 512;
        }
      }
      ok := true;
    }

    /** One bank of the mount loop: its snapshot, if the bank is valid. */
    method LoadBank(slot: nat, s: Sector) returns (ok: bool, valid: bool)
      requires dev.Valid() && buffer.Length == BANK_BYTES && slot < 2 && |next| == FILES
      requires s == TC.View(dev.durable, dev.pending)[RecordLba(slot)]
      requires volume == VolumeId(TC.View(dev.durable, dev.pending)[HEADER])
      modifies `next, buffer
      ensures |next| == FILES
      ensures ok ==>
                var found := BankAt(sha, TC.View(dev.durable, dev.pending), slot);
                valid == found.Some? && (valid ==> found == Some(Snapshot(LeVal(s[8..16]), next)))
    {
      hide RecordOk, LeVal, Decode;
      if !RecordOk(sha, s, slot, volume) {
        return true, false;
      }
      ok := ReadBank(slot);
      if !ok {
        return false, false;
      }
      var b := buffer[..];
      if sha(b) != s[40..72] {
        return true, false;
      }
      valid := DecodeBank(LeVal(s[8..16]), CURRENT);
      if !valid {
        valid := DecodeBank(LeVal(s[8..16]), LEGACY);
      }
      ok := true;
    }

    /** Takes bank `slot` if it is valid and newer than what has been selected. */
    method TryBank(slot: nat) returns (r: Status)
      requires Valid() && !ready && slot < 2 && volume == VolumeId(TC.View(dev.durable, dev.pending)[HEADER])
      modifies this, buffer
      ensures Valid() && !ready && volume == old(volume) && r in {Ok, ReadFailed, BadFormat}
      ensures r != ReadFailed ==>
                match BankAt(sha, TC.View(dev.durable, dev.pending), slot)
                case None => r == Ok && Selected() == old(Selected())
                case Some(sn) =>
                  && sn.generation != 0 && (r == BadFormat <==> sn.generation == old(generation))
                  && (r == Ok ==> Selected() == if sn.generation > old(generation) then Mounted(sn, slot) else old(Selected()))
    {
      hide HeaderOk, LeVal, BankAt, Wf;
      ghost var view := TC.View(dev.durable, dev.pending);
      var ok, s := dev.Read(RecordLba(slot));
      if !ok {
        return ReadFailed;
      }
      var valid;
      ok, valid := LoadBank(slot, s);
      if !ok {
        return ReadFailed;
      }
      if valid {
        BankFacts(sha, view, slot);
        var found := LeVal(s[8..16]);
        if found == generation {
          return BadFormat;
        }
        if found > generation {
          generation, bank, files := found, slot, next;
        }
      }
      r := Ok;
    }

    ghost function Selected(): Mount
      reads this
    {
      Mounted(Snapshot(generation, files), bank)
    }

    /** Selects the newer valid bank; never writes to the device. */
    method Mount(ghost start: TC.Sys) returns (r: Status)
      requires Valid()
      modifies this, buffer
      ensures Valid()
      ensures r == ReadFailed ==> !ready
      ensures r != ReadFailed ==>
                match Recover(sha, TC.View(dev.durable, dev.pending))
                case Mounted(sn, slot) =>
                  r == Ok && ready && generation == sn.generation && bank == slot && files == sn.files
                case Refused => r == BadFormat && !ready
      ensures r == Ok && old(Mirrors(start)) && start.stage.Idle? ==>
        Mirrors(TC.AfterMount(sha, start)) && (TC.Settled(sha, start) ==> TC.Step(sha, start, TC.AfterMount(sha, start)))
    {
      hide HeaderOk, LeVal, BankAt, Wf, TC.Shape, TC.AfterMount, TC.Settled, TC.Step;
      ghost var view := TC.View(dev.durable, dev.pending);
      ready, generation := false, 0;
      var ok, s := dev.Read(HEADER);
      if !ok {
        return ReadFailed;
      }
      if !HeaderOk(sha, s) {
        return BadFormat;
      }
      volume := VolumeId(s);
      for slot := 0 to 2
        invariant Valid() && !ready && view == TC.View(dev.durable, dev.pending) && volume == VolumeId(view[HEADER])
        invariant slot == 0 ==> generation == 0
        invariant slot == 1 ==> Selects(BankAt(sha, view, 0), None)
        invariant slot == 2 ==> Selects(BankAt(sha, view, 0), BankAt(sha, view, 1))
      {
        r := TryBank(slot);
        if r != Ok {
          return;
        }
      }
      if generation == 0 {
        return BadFormat;
      }
      HeaderKept(dev.durable, dev.pending);
      SelectedFacts(sha, view);
      if TC.Shape(start) && TC.Cache(start) == view && start.stage.Idle? {
        MountIsStep(sha, start);
      }
      ready := true;
      r := Ok;
    }

    /** What the mount loop has selected among the banks read so far. */
    ghost predicate Selects(x: Option<Snapshot>, y: Option<Snapshot>)
      reads this
    {
      match Choose(x, y)
      case Mounted(sn, slot) => generation == sn.generation && generation != 0 && bank == slot && files == sn.files
      case Refused => generation == 0 && x.None? && y.None?
    }

    /** Contents of a stored file; the empty path names any unused slot. */
    method Get(path: seq<byte>, capacity: nat) returns (r: Status, out: seq<byte>)
      requires Valid()
      ensures !ready <==> r == DeviceGone
      ensures ready && path != [] ==>
                match Lookup(files, path)
                case None => r == NotFound
                case Some(data) => if |data| > capacity then r == NoSpace else r == Ok && out == data
      ensures r != Ok ==> out == []
    {
      hide PathOk;
      if !ready {
        return DeviceGone, [];
      }
      for i := 0 to FILES
        invariant path != [] ==> Lookup(files, path) == Lookup(files[i..], path)
      {
        EmptyPath(files, i);
        assert files[i..][1..] == files[i + 1..];
        if files[i].path == path {
          if |files[i].data| > capacity {
            return NoSpace, [];
          }
          return Ok, files[i].data;
        }
      }
      r, out := NotFound, [];
    }

    /** Fills `buffer` with the bank image of `next`, one file at a time. */
    method BuildImage(generation: nat)
      requires buffer.Length == BANK_BYTES && Wf(next)
      modifies buffer
      ensures Writable(next) && buffer[..] == Image(sha, generation, next)
    {
      hide PathOk, Le, EntryOf, SlotOf, Wf, Partial, HeaderOf;
      WfWritable(next);
      forall k | 0 <= k < BANK_BYTES {
        buffer[k] := 0;
      }
      var count := UsedSlots(next);
      CopyInto(0, HeaderOf(generation, count));
      PartialStart(sha, buffer[..], generation, next);
      for i := 0 to count
        invariant Partial(sha, buffer[..], generation, next, i)
      {
        ghost var was := buffer[..];
        CopyInto(512 + i * 128, EntryOf(sha, next[i]));
        CopyInto(1152 + i * 16384, SlotOf(next[i]));
        PartialStep(sha, was, buffer[..], generation, next, i);
      }
      BuiltImage(sha, buffer[..], generation, next);
    }

    static method UsedSlots(table: seq<File>) returns (count: nat)
      ensures count == Count(table)
    {
      count := 0;
      while count < |table| && table[count].path != []
        invariant count <= |table|
        invariant Count(table) == count + Count(table[count..])
      {
        assert table[count..][1..] == table[count + 1..];
        count := count + 1;
      }
    }

    /** `s` is this volume and its device, seen as a state of the protocol. */
    ghost predicate Mirrors(s: TC.Sys)
      reads this, dev
    {
      && TC.Shape(s) && s.durable == dev.durable && s.pending == dev.pending
      && s.volume == TC.Volume(ready, generation, bank, files)
    }

    /** Copies the table and applies the updates to the copy, stopping at the first bad one. */
    method PlanNext(paths: seq<seq<byte>>, data: seq<array<byte>>, bytes: seq<nat>) returns (r: Status)
      requires |files| == FILES && |paths| == |data| == |bytes|
      requires forall n :: 0 <= n < |bytes| && bytes[n] <= FILE_BYTES ==> bytes[n] <= data[n].Length
      modifies `next
      ensures |next| == FILES
      ensures match Plan(files, Updates(paths, Arrays(data), bytes), |paths|)
              case Planned(n) => r == Ok && next == n
              case Rejected(status) => r == status && r != Ok
    {
      hide PathOk, Plan, SlotFor, Fresh;
      ghost var updates := Updates(paths, Arrays(data), bytes);
      next := files;
      PlanStart(files, updates);
      for n := 0 to |paths|
        invariant |next| == FILES && updates == Updates(paths, Arrays(data), bytes)
        invariant Plan(files, updates, n) == Planned(next)
      {
        PlanNextIs(files, updates, n, next);
        RejectedStays(files, updates, n + 1, |paths|);
        var legal := CheckPath(paths[n]);
        if !legal || bytes[n] > FILE_BYTES {
          return Invalid;
        }
        var again := Repeats(paths, n, updates);
        if again {
          return Invalid;
        }
        var i := FindSlot(next, paths[n]);
        if i == FILES {
          return NoSpace;
        }
        next := next[i := File(paths[n], data[n][..bytes[n]])];
      }
      r := Ok;
    }

    static method FindSlot(table: seq<File>, path: seq<byte>) returns (i: nat)
      ensures i == SlotFor(table, path)
    {
      i := 0;
      while i < |table| && table[i].path != [] && table[i].path != path
        invariant i <= |table|
        invariant SlotFor(table, path) == i + SlotFor(table[i..], path)
      {
        assert table[i..][1..] == table[i + 1..];
        i := i + 1;
      }
    }

    static method Repeats(paths: seq<seq<byte>>, n: nat, ghost updates: seq<Update>) returns (found: bool)
      requires n < |paths| == |updates| && forall k :: 0 <= k < |paths| ==> updates[k].path == paths[k]
      ensures found == !Fresh(updates, n)
    {
      for j := 0 to n
        invariant forall k :: 0 <= k < j ==> paths[k] != paths[n]
      {
        if paths[j] == paths[n] {
          return true;
        }
      }
      found := false;
    }

    /** One sector write of the commit, as a step of the protocol. */
    method StepWrite(lba: nat, data: Sector, ghost s: TC.Sys) returns (ok: bool, ghost t: TC.Sys)
      requires dev.Valid() && TC.Shape(s) && s.durable == dev.durable && s.pending == dev.pending
      requires s.volume.bank < 2 && TC.Writing(s) && Writable(s.stage.next)
      requires TC.NextWrite(sha, s) == Write(lba, data) && HEADER < lba < SECTORS
      modifies dev
      ensures dev.Valid() && TC.Shape(t) && t.durable == dev.durable == old(dev.durable) && t.pending == dev.pending
      ensures TC.Step(sha, s, t)
      ensures t == s.(pending := t.pending, stage := if ok then TC.AfterWrite(s.stage) else TC.Idle,
                      volume := s.volume.(ready := s.volume.ready && ok))
    {
      hide TC.NextWrite, TC.Mixed, TC.Crash, TC.Remount, TC.FlushOk, TC.FlushFails, Writable;
      ok := dev.WriteSector(lba, data);
      t := s.(pending := dev.pending, stage := if ok then TC.AfterWrite(s.stage) else TC.Idle,
              volume := s.volume.(ready := s.volume.ready && ok));
      if ok {
        assert TC.WriteOk(sha, s, t);
      } else {
        assert TC.WriteFails(sha, s, t);
      }
    }

    method StepFlush(ghost s: TC.Sys) returns (ok: bool, ghost t: TC.Sys)
      requires dev.Valid() && TC.Shape(s) && s.durable == dev.durable && s.pending == dev.pending && TC.Flushing(s)
      modifies dev
      ensures dev.Valid() && TC.Shape(t) && t.durable == dev.durable && t.pending == dev.pending
      ensures dev.durable[HEADER] == old(dev.durable)[HEADER]
      ensures TC.Step(sha, s, t)
      ensures ok ==> t == TC.Flushed(s)
      ensures !ok ==> t.stage == TC.Idle && t.volume == s.volume.(ready := false)
    {
      hide TC.Crash, TC.Remount, TC.WriteOk, TC.WriteFails, TC.CrashOf;
      HeaderKept(dev.durable, dev.pending);
      HeaderSurvives(dev.durable, dev.pending);
      ok := dev.Flush();
      if ok {
        t := TC.Flushed(s);
        assert TC.FlushOk(s, t);
      } else {
        t := s.(durable := dev.durable, pending := dev.pending, stage := TC.Idle, volume := s.volume.(ready := false));
        assert TC.FlushFails(s, t);
      }
    }

    /** The part of a commit state that the device operations must follow. */
    ghost predicate Following(s: TC.Sys, run: seq<TC.Sys>, stage: TC.Stage)
      reads this, dev
    {
      && TR.Steps(sha, run) && run[|run| - 1] == s
      && TC.Shape(s) && s.durable == dev.durable && s.pending == dev.pending
      && s.volume == TC.Volume(true, generation, bank, files) && s.stage == stage
    }

    /** Zeroes the target record and makes that durable. */
    method InvalidateTarget(ghost start: TC.Sys) returns (ok: bool, ghost s: TC.Sys, ghost run: seq<TC.Sys>)
      requires Valid() && ready && generation < MAX_U64 && Wf(next) && Mirrors(start) && start.stage.Idle?
      modifies dev
      ensures Valid() && TR.Steps(sha, run) && run[0] == start && run[|run| - 1] == s
      ensures TR.OnlyBegins(run, files, next)
      ensures ok ==> Following(s, run, TC.WriteData(next, 0))
      ensures !ok ==> Stopped(s)
    {
      hide TC.Step, TC.NextWrite, TC.Flushed, Wf, Image, TR.OnlyBegins;
      WfWritable(next);
      s := start.(stage := TC.Invalidate(next));
      BeginStep(sha, start, next);
      assert TR.OnlyBegins([start], files, next) by { NoBegins(start, files, next); }
      TR.ExtendBegins([start], s, files, next);
      run := TR.Extend(sha, [start], s);
      assert TC.NextWrite(sha, s) == Write(RecordLba(TC.Flip(bank)), Zeros(512)) by { InvalidateWrite(sha, s); }
      ghost var t;
      ok, t := StepWrite(RecordLba(TC.Flip(bank)), Zeros(512), s);
      TR.ExtendBegins(run, t, files, next);
      run, s := TR.Extend(sha, run, t), t;
      if !ok {
        return;
      }
      ok, t := StepFlush(s);
      FlushedInvalid(s);
      TR.ExtendBegins(run, t, files, next);
      run, s := TR.Extend(sha, run, t), t;
    }

    /** The device stopped in the middle of a commit. */
    ghost predicate Stopped(s: TC.Sys)
      reads this, dev
    {
      && TC.Shape(s) && s.durable == dev.durable && s.pending == dev.pending
      && s.volume == TC.Volume(false, generation, bank, files) && s.stage.Idle?
    }

    /** Writes every sector of the image and makes them durable. */
    method WriteImage(ghost start: TC.Sys, ghost before: seq<TC.Sys>) returns (ok: bool, ghost s: TC.Sys, ghost run: seq<TC.Sys>)
      requires Valid() && ready && generation < MAX_U64 && Wf(next) && Writable(next)
      requires buffer[..] == Image(sha, generation + 1, next)
      requires Following(start, before, TC.WriteData(next, 0)) && TR.OnlyBegins(before, files, next)
      modifies dev
      ensures TR.OnlyBegins(run, files, next)
      ensures Valid() && TR.Steps(sha, run) && run[0] == before[0] && run[|run| - 1] == s
      ensures ok ==> Following(s, run, TC.WriteRecord(next))
      ensures !ok ==> Stopped(s)
    {
      hide TC.Step, TC.NextWrite, TC.Flushed, Wf, Image, Writable, TR.OnlyBegins;
      s, run := start, before;
      ghost var t;
      var target := TC.Flip(bank);
      for i := 0 to BANK_SECTORS
        invariant Valid() && |run| > 0 && run[0] == before[0] && TR.OnlyBegins(run, files, next)
        invariant Following(s, run, if i < BANK_SECTORS then TC.WriteData(next, i) else TC.FlushData(next))
      {
        DataWrite(sha, s, buffer[..], i);
        ok, t := StepWrite(DataLba(target, i), buffer[i * 512..(i + 1) * 512], s);
        TR.ExtendBegins(run, t, files, next);
        run, s := TR.Extend(sha, run, t), t;
        if !ok {
          return;
        }
      }
      ok, t := StepFlush(s);
      FlushedData(s);
      TR.ExtendBegins(run, t, files, next);
      run, s := TR.Extend(sha, run, t), t;
    }

    /** Writes the sealed record and makes it durable: the commit point. */
    method SealTarget(ghost start: TC.Sys, ghost before: seq<TC.Sys>) returns (ok: bool, ghost s: TC.Sys, ghost run: seq<TC.Sys>)
      requires Valid() && ready && generation < MAX_U64 && Wf(next) && Writable(next)
      requires buffer[..] == Image(sha, generation + 1, next)
      requires Following(start, before, TC.WriteRecord(next)) && TR.OnlyBegins(before, files, next)
      modifies dev
      ensures TR.OnlyBegins(run, files, next)
      ensures Valid() && TR.Steps(sha, run) && run[0] == before[0] && run[|run| - 1] == s
      ensures TC.Shape(s) && s.durable == dev.durable && s.pending == dev.pending && s.stage.Idle?
      ensures ok ==> s.volume == TC.Volume(true, generation + 1, TC.Flip(bank), next)
      ensures !ok ==> Stopped(s)
    {
      hide TC.Step, TC.NextWrite, TC.Flushed, Wf, Image, Writable, CommitRecord, TR.OnlyBegins;
      var target := TC.Flip(bank);
      var record := CommitRecord(sha, target, volume, generation + 1, sha(buffer[..]));
      SealWrite(sha, start, buffer[..], volume);
      ok, s := StepWrite(RecordLba(target), record, start);
      TR.ExtendBegins(before, s, files, next);
      run := TR.Extend(sha, before, s);
      if !ok {
        return;
      }
      ghost var t;
      ok, t := StepFlush(s);
      FlushedRecord(s);
      TR.ExtendBegins(run, t, files, next);
      run, s := TR.Extend(sha, run, t), t;
    }

    /**
     Commits the updates as one new snapshot. Every execution is a run of the
     crash protocol from `start`, and the caller's buffers are read before the
     scratch buffer is overwritten, so they may be that buffer.
     */
    method Commit(paths: seq<seq<byte>>, data: seq<array<byte>>, bytes: seq<nat>, ghost start: TC.Sys)
      returns (r: Status, ghost run: seq<TC.Sys>)
      requires Valid() && Mirrors(start) && start.stage.Idle?
      requires |paths| == |data| == |bytes|
      requires forall n :: 0 <= n < |bytes| && bytes[n] <= FILE_BYTES ==> bytes[n] <= data[n].Length
      modifies this, buffer, dev
      ensures Valid()
      ensures TR.Steps(sha, run) && run[0] == start && Mirrors(run[|run| - 1]) && run[|run| - 1].stage.Idle?
      ensures !old(ready) ==> r == DeviceGone
      ensures old(ready) && (|paths| == 0 || |paths| > FILES || old(generation) == MAX_U64) ==> r == Invalid
      ensures old(ready) && 1 <= |paths| <= FILES && old(generation) < MAX_U64 ==>
                match Plan(old(files), Updates(paths, old(Arrays(data)), bytes), |paths|)
                case Rejected(status) => r == status
                case Planned(n) =>
                  || (r == Ok && ready && files == n && generation == old(generation) + 1 && bank == TC.Flip(old(bank)))
                  || (r == Uncertain && !ready)
      ensures r != Ok ==> files == old(files) && generation == old(generation) && bank == old(bank)
      ensures r != Ok && r != Uncertain ==> ready == old(ready) && unchanged(dev) && run == [start]
      ensures |run| > 1 ==>
                var p := Plan(old(files), Updates(paths, old(Arrays(data)), bytes), |paths|);
                p.Planned? && TR.OnlyBegins(run, old(files), p.files)
    {
      hide TC.Shape, Wf, Image, Plan, TC.Step, TR.OnlyBegins;
      run := [start];
      if !ready {
        return DeviceGone, run;
      }
      if |paths| == 0 || |paths| > FILES || generation == MAX_U64 {
        return Invalid, run;
      }
      TableSize(files);
      r := PlanNext(paths, data, bytes);
      if r != Ok {
        return;
      }
      PlanKeepsWf(files, Updates(paths, Arrays(data), bytes), |paths|);
      r, run := WriteOut(start);
    }

    /** Rebuilds the scratch buffer and runs the three device phases. */
    method WriteOut(ghost start: TC.Sys) returns (r: Status, ghost run: seq<TC.Sys>)
      requires Valid() && ready && generation < MAX_U64 && Wf(next) && Mirrors(start) && start.stage.Idle?
      modifies this, buffer, dev
      ensures Valid()
      ensures TR.Steps(sha, run) && run[0] == start && Mirrors(run[|run| - 1]) && run[|run| - 1].stage.Idle?
      ensures || (r == Ok && ready && files == old(next) && generation == old(generation) + 1 && bank == TC.Flip(old(bank)))
              || (r == Uncertain && !ready && files == old(files) && generation == old(generation) && bank == old(bank))
      ensures TR.OnlyBegins(run, old(files), old(next))
    {
      hide TC.Shape, Wf, Image, TC.Step, TR.OnlyBegins;
      BuildImage(generation + 1);
      var ok;
      ghost var s;
      ok, s, run := InvalidateTarget(start);
      if ok {
        ok, s, run := WriteImage(s, run);
      }
      if ok {
        ok, s, run := SealTarget(s, run);
      }
      if ok {
        files, generation, bank := next, generation + 1, TC.Flip(bank);
        r := Ok;
      } else {
        ready := false;
        r := Uncertain;
      }
    }

    /** Truncates or zero-extends one file, staging the new contents in `buffer`. */
    method Resize(path: seq<byte>, bytes: nat, ghost start: TC.Sys) returns (r: Status, ghost run: seq<TC.Sys>)
      requires Valid() && Mirrors(start) && start.stage.Idle?
      modifies this, buffer, dev
      ensures Valid()
      ensures TR.Steps(sha, run) && run[0] == start && Mirrors(run[|run| - 1]) && run[|run| - 1].stage.Idle?
      ensures !old(ready) ==> r == DeviceGone
      ensures old(ready) && !PathOk(path) ==> r == Invalid
      ensures old(ready) && PathOk(path) && bytes > FILE_BYTES ==> r == NoSpace
      ensures old(ready) && PathOk(path) && bytes <= FILE_BYTES ==>
                var was := if Lookup(old(files), path).Some? then Lookup(old(files), path).value else [];
                if bytes == |was| then r == Ok && files == old(files) && generation == old(generation)
                else if old(generation) == MAX_U64 then r == Invalid
                else
                  match Plan(old(files), [Update(path, Resized(was, bytes))], 1)
                  case Rejected(status) => r == status
                  case Planned(n) => (r == Ok && files == n && generation == old(generation) + 1) || r == Uncertain
      ensures r != Ok ==> files == old(files) && generation == old(generation)
      ensures |run| > 1 ==>
                var was := if Lookup(old(files), path).Some? then Lookup(old(files), path).value else [];
                var p := Plan(old(files), [Update(path, Resized(was, bytes))], 1);
                p.Planned? && TR.OnlyBegins(run, old(files), p.files)
    {
      hide TC.Shape, Wf, TC.Step, Plan, TR.OnlyBegins;
      run := [start];
      if !ready {
        return DeviceGone, run;
      }
      var legal := CheckPath(path);
      if !legal {
        return Invalid, run;
      }
      if bytes > FILE_BYTES {
        return NoSpace, run;
      }
      TableSize(files);
      NonEmpty(path);
      var i := IndexOf(files, path);
      var was := if i < FILES then files[i].data else [];
      if bytes == |was| {
        return Ok, run;
      }
      CopyInto(0, Zeros(bytes));
      CopyInto(0, was[..if |was| < bytes then |was| else bytes]);
      assert buffer[..bytes] == Resized(was, bytes);
      ghost var updates := Updates([path], Arrays([buffer]), [bytes]);
      assert updates == [Update(path, Resized(was, bytes))];
      assert |[path]| == 1;
      r, run := Commit([path], [buffer], [bytes], start);
    }

    static method IndexOf(table: seq<File>, path: seq<byte>) returns (i: nat)
      requires path != []
      ensures i <= |table|
      ensures i < |table| ==> table[i].path == path && Lookup(table, path) == Some(table[i].data)
      ensures i == |table| ==> Lookup(table, path).None?
    {
      i := 0;
      while i < |table| && table[i].path != path
        invariant i <= |table|
        invariant Lookup(table, path) == Lookup(table[i..], path)
      {
        assert table[i..][1..] == table[i + 1..];
        i := i + 1;
      }
    }

    static method HasPath(table: seq<File>, n: nat, path: seq<byte>) returns (found: bool)
      requires n <= |table|
      ensures found <==> exists j :: 0 <= j < n && table[j].path == path
    {
      for j := 0 to n
        invariant forall k :: 0 <= k < j ==> table[k].path != path
      {
        if table[j].path == path {
          return true;
        }
      }
      found := false;
    }
  }

  /** A valid bank has a positive generation and a legal table. */
  lemma BankFacts(sha: Hash, d: Disk, slot: nat)
    requires |d| == SECTORS && slot < 2 && BankAt(sha, d, slot).Some?
    ensures 1 <= BankAt(sha, d, slot).value.generation <= MAX_U64
    ensures Wf(BankAt(sha, d, slot).value.files)
  {
    hide Decode;
    var s, b := d[RecordLba(slot)], BankBytes(d, slot);
    var generation := LeVal(s[8..16]);
    LeCanonical(s[8..16]);
    Pow256Values();
    if Decode(sha, b, generation, CURRENT).Some? {
      DecodedTable(sha, b, generation, CURRENT);
    } else {
      DecodedTable(sha, b, generation, LEGACY);
    }
  }

  lemma SelectedFacts(sha: Hash, d: Disk)
    requires |d| == SECTORS
    ensures Choose(BankAt(sha, d, 0), BankAt(sha, d, 1)).Mounted? ==>
              var sn := Choose(BankAt(sha, d, 0), BankAt(sha, d, 1)).snapshot;
              1 <= sn.generation <= MAX_U64 && Wf(sn.files)
  {
    hide BankAt, Wf;
    if BankAt(sha, d, 0).Some? {
      BankFacts(sha, d, 0);
    }
    if BankAt(sha, d, 1).Some? {
      BankFacts(sha, d, 1);
    }
  }

  lemma {:induction false} HeaderKept(d: Disk, pending: seq<Write>)
    requires |d| == SECTORS && forall n :: 0 <= n < |pending| ==> HEADER < pending[n].lba < SECTORS
    ensures TC.View(d, pending)[HEADER] == d[HEADER]
  {
    TC.ViewIsCrash(d, pending);
    TC.SectorKept(d, pending, TC.View(d, pending), HEADER);
  }

  lemma HeaderSurvives(d: Disk, pending: seq<Write>)
    requires |d| == SECTORS && forall n :: 0 <= n < |pending| ==> HEADER < pending[n].lba < SECTORS
    ensures forall e: Disk :: TC.CrashOf(d, pending, e) ==> |e| == SECTORS && e[HEADER] == d[HEADER]
  {
    forall e: Disk | TC.CrashOf(d, pending, e)
      ensures |e| == SECTORS && e[HEADER] == d[HEADER]
    {
      TC.SectorKept(d, pending, e, HEADER);
    }
  }

  lemma TableSize(files: seq<File>)
    requires Wf(files)
    ensures |files| == FILES
  {
  }

  lemma BeginStep(sha: Hash, s: TC.Sys, next: seq<File>)
    requires s.stage.Idle? && s.volume.ready && s.volume.generation < MAX_U64 && Wf(next)
    ensures TC.Step(sha, s, s.(stage := TC.Invalidate(next)))
  {
    hide Wf;
    assert TC.Begin(s, s.(stage := TC.Invalidate(next)), next);
  }

  lemma InvalidateWrite(sha: Hash, s: TC.Sys)
    requires |s.durable| == SECTORS && s.volume.bank < 2 && s.stage.Invalidate? && Writable(s.stage.next)
    ensures TC.NextWrite(sha, s) == Write(RecordLba(TC.Flip(s.volume.bank)), Zeros(512))
  {
  }

  lemma DataWrite(sha: Hash, s: TC.Sys, b: seq<byte>, i: nat)
    requires |s.durable| == SECTORS && s.volume.bank < 2 && s.stage.WriteData? && Writable(s.stage.next)
    requires s.stage.i == i < BANK_SECTORS
    requires b == Image(sha, s.volume.generation + 1, s.stage.next)
    ensures |b| == BANK_BYTES
    ensures TC.NextWrite(sha, s) == Write(DataLba(TC.Flip(s.volume.bank), i), b[i * 512..(i + 1) * 512])
  {
    hide Image, Writable;
  }

  lemma SealWrite(sha: Hash, s: TC.Sys, b: seq<byte>, volume: seq<byte>)
    requires |s.durable| == SECTORS && s.volume.bank < 2 && s.stage.WriteRecord? && Writable(s.stage.next)
    requires b == Image(sha, s.volume.generation + 1, s.stage.next) && volume == VolumeId(s.durable[HEADER])
    ensures |volume| == 16
    ensures var target := TC.Flip(s.volume.bank);
            TC.NextWrite(sha, s) == Write(RecordLba(target), CommitRecord(sha, target, volume, s.volume.generation + 1, sha(b)))
  {
    hide Image, Writable, CommitRecord;
  }

  lemma FlushedInvalid(s: TC.Sys)
    requires TC.Shape(s) && s.stage.FlushInvalid?
    ensures TC.Flushed(s) == s.(durable := TC.Cache(s), pending := [], stage := TC.WriteData(s.stage.next, 0))
  {
  }

  lemma FlushedData(s: TC.Sys)
    requires TC.Shape(s) && s.stage.FlushData?
    ensures TC.Flushed(s).stage == TC.WriteRecord(s.stage.next) && TC.Flushed(s).volume == s.volume
  {
  }

  lemma FlushedRecord(s: TC.Sys)
    requires TC.Shape(s) && s.stage.FlushRecord?
    ensures TC.Flushed(s).stage.Idle?
    ensures TC.Flushed(s).volume == TC.Volume(true, s.volume.generation + 1, TC.Flip(s.volume.bank), s.stage.next)
  {
  }

  lemma NoBegins(s: TC.Sys, files: seq<File>, next: seq<File>)
    ensures TR.OnlyBegins([s], files, next)
  {
  }

  /** Mounting what the cache shows is the protocol's remount, a step of it when that is settled. */
  lemma MountIsStep(sha: Hash, s: TC.Sys)
    requires TC.Shape(s) && s.stage.Idle? && Recover(sha, TC.Cache(s)).Mounted?
    ensures var t, m := TC.AfterMount(sha, s), Recover(sha, TC.Cache(s));
            && TC.Shape(t) && t.durable == s.durable && t.pending == s.pending
            && t.volume == TC.Volume(true, m.snapshot.generation, m.bank, m.snapshot.files)
            && (TC.Settled(sha, s) ==> TC.Step(sha, s, t))
  {
    hide BankAt;
  }

  /** The bank image with its first `i` files in place and zeros behind them. */
  ghost predicate Partial(sha: Hash, b: seq<byte>, generation: nat, files: seq<File>, i: nat) {
    && |b| == BANK_BYTES && Writable(files) && i <= FILES
    && (forall k :: 0 <= k < 512 ==> b[k] == HeaderOf(generation, Count(files))[k])
    && (forall j, k :: 0 <= j < i && 0 <= k < 128 ==> b[512 + j * 128 + k] == EntryOf(sha, files[j])[k])
    && (forall j, k :: 0 <= j < i && 0 <= k < 16384 ==> b[1152 + j * 16384 + k] == SlotOf(files[j])[k])
    && (forall k :: 512 + i * 128 <= k < 1152 ==> b[k] == 0)
    && (forall k :: 1152 + i * 16384 <= k < BANK_BYTES ==> b[k] == 0)
  }

  lemma PartialStart(sha: Hash, b: seq<byte>, generation: nat, files: seq<File>)
    requires |b| == BANK_BYTES && Writable(files)
    requires forall k :: 0 <= k < BANK_BYTES ==> b[k] == if k < 512 then HeaderOf(generation, Count(files))[k] else 0
    ensures Partial(sha, b, generation, files, 0)
  {
    hide HeaderOf, EntryOf, SlotOf;
  }

  lemma PartialStep(sha: Hash, b: seq<byte>, c: seq<byte>, generation: nat, files: seq<File>, i: nat)
    requires Partial(sha, b, generation, files, i) && i < FILES && |c| == BANK_BYTES
    requires forall k :: 0 <= k < BANK_BYTES ==>
      c[k] == if 512 + i * 128 <= k < 512 + i * 128 + 128 then EntryOf(sha, files[i])[k - (512 + i * 128)]
              else if 1152 + i * 16384 <= k < 1152 + i * 16384 + 16384 then SlotOf(files[i])[k - (1152 + i * 16384)]
              else b[k]
    ensures Partial(sha, c, generation, files, i + 1)
  {
    hide HeaderOf, EntryOf, SlotOf;
  }

  lemma BuiltImage(sha: Hash, b: seq<byte>, generation: nat, files: seq<File>)
    requires Wf(files) && Partial(sha, b, generation, files, Count(files))
    ensures b == Image(sha, generation, files)
  {
    hide PathOk, HeaderOf, Image;
    assert b[..512] == HeaderOf(generation, Count(files));
    forall i | 0 <= i < FILES
      ensures Entry(b, i) == EntryOf(sha, files[i])
      ensures Slot(b, i, CURRENT.dataStart) == SlotOf(files[i])
    {
      CountSplits(files, i);
      BuiltRow(sha, b, files[i], i, i < Count(files));
    }
    ImageFromParts(sha, b, generation, files);
  }

  lemma BuiltRow(sha: Hash, b: seq<byte>, f: File, i: nat, used: bool)
    requires |b| == BANK_BYTES && i < FILES && |f.path| <= 64 && |f.data| <= FILE_BYTES && (!used ==> f == EMPTY)
    requires used ==> forall k :: 0 <= k < 128 ==> b[512 + i * 128 + k] == EntryOf(sha, f)[k]
    requires used ==> forall k :: 0 <= k < 16384 ==> b[1152 + i * 16384 + k] == SlotOf(f)[k]
    requires !used ==> forall k :: 512 + i * 128 <= k < 1152 ==> b[k] == 0
    requires !used ==> forall k :: 1152 + i * 16384 <= k < BANK_BYTES ==> b[k] == 0
    ensures Entry(b, i) == EntryOf(sha, f) && Slot(b, i, CURRENT.dataStart) == SlotOf(f)
  {
    var e, d := Entry(b, i), Slot(b, i, CURRENT.dataStart);
    assert forall k :: 0 <= k < 128 ==> e[k] == b[512 + i * 128 + k];
    assert forall k :: 0 <= k < 16384 ==> d[k] == b[1152 + i * 16384 + k];
    if !used {
      AllZeroIsZeros(e);
      AllZeroIsZeros(d);
    }
  }

  lemma RowIs(sha: Hash, b: seq<byte>, g: Geometry, i: nat)
    requires |b| == BANK_BYTES && Fits(g) && i < g.slots
    ensures var e, d := Entry(b, i), Slot(b, i, g.dataStart);
            if i < LeVal(b[16..20]) then
              && Accepted(sha, b, g, i) == Record(sha, e, d)
              && (Record(sha, e, d) ==> Length(e) <= FILE_BYTES && FileAt(b, g, i) == File(Path(e), d[..Length(e)]))
            else
              Accepted(sha, b, g, i) == (AllZero(e) && AllZero(d)) && FileAt(b, g, i) == EMPTY
  {
  }

  lemma PastSlots(b: seq<byte>, g: Geometry, i: nat)
    requires |b| == BANK_BYTES && Fits(g) && g.slots <= i < FILES
    ensures FileAt(b, g, i) == EMPTY
  {
  }
}
