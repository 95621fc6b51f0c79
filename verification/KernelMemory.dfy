/** The kernel's page allocator, page-table walker and user copies, in place. */
module KernelMemory {
  import opened Bytes
  import opened PageTables
  import opened PageMemory

  const PAGE_LIMIT_MAX: nat := 4096
  const PHYSICAL: nat := 0x10_0000_0000_0000

  datatype Status = Ok | Denied | NoSpace | Invalid | Busy | NotFound

  /** Mapping flags: bit 0 read, bit 1 write, bit 2 execute. */
  predicate BadMapping(v: nat, physical: nat, flags: nat) {
    v % 4096 != 0 || physical % 4096 != 0 || flags % 2 == 0 || flags / 2 % 4 == 3
  }

  function MappingEntry(physical: nat, flags: nat, mmio: bool): nat {
    LeafEntry(physical / 4096, flags / 2 % 2 == 1, flags / 4 % 2 == 1, mmio)
  }

  lemma MappingBits(physical: nat, flags: nat, mmio: bool)
    requires physical < PHYSICAL && flags / 2 % 4 != 3
    ensures var w := MappingEntry(physical, flags, mmio);
            && w < WORD && Present(w) && User(w) && FrameOf(w) == physical / 4096 && Mmio(w) == mmio
            && Writable(w) == (flags / 2 % 2 == 1) && NoExec(w) == (flags / 4 % 2 == 0) && !(Writable(w) && !NoExec(w))
  {
    hide LeafEntry, Present, User, Writable, Mmio, NoExec, FrameOf;
    LeafBits(physical / 4096, flags / 2 % 2 == 1, flags / 4 % 2 == 1, mmio);
    FlagBits(flags / 2);
    Halves(flags);
  }

  /**
   The word maps the page of `physical` to the user, as memory: bit 1 is the write
   flag asked for, bit 63 is clear exactly when execution was asked for.
   */
  predicate Grants(w: nat, physical: nat, flags: nat) {
    && w % 2 == 1 && w / 4 % 2 == 1 && w / 512 % 2 == 0
    && w / 4096 % 0x100_0000_0000 == physical / 4096
    && w / 2 % 2 == flags / 2 % 2
    && (w / 0x8000_0000_0000_0000 % 2 == 0 <==> flags / 4 % 2 == 1)
  }

  lemma MappingGrants(physical: nat, flags: nat)
    requires physical < PHYSICAL && flags / 2 % 4 != 3
    ensures Grants(MappingEntry(physical, flags, false), physical, flags)
  {
    hide LeafEntry, MappingEntry;
    MappingBits(physical, flags, false);
  }

  /** The word maps a device page to the user: writable, uncached, marked as a device, never executable. */
  predicate GrantsDevice(w: nat, physical: nat) {
    && w % 2 == 1 && w / 2 % 2 == 1 && w / 4 % 2 == 1 && w / 8 % 4 == 3 && w / 512 % 2 == 1
    && w / 4096 % 0x100_0000_0000 == physical / 4096 && w / 0x8000_0000_0000_0000 % 2 == 1
  }

  lemma DeviceGranted(physical: nat)
    requires physical < PHYSICAL
    ensures GrantsDevice(MappingEntry(physical, 3, true), physical)
  {
    hide MappingEntry, LeafEntry;
    MappingBits(physical, 3, true);
    DeviceWord(physical);
    Uncached(physical / 4096 + 0x8_0000_0000_0000);
  }

  lemma DeviceWord(physical: nat)
    ensures MappingEntry(physical, 3, true) == 4096 * (physical / 4096 + 0x8_0000_0000_0000) + 0x21f
  {
  }

  lemma Uncached(high: nat)
    ensures (4096 * high + 0x21f) / 8 % 4 == 3
  {
    assert (4096 * high + 0x21f) / 8 == 512 * high + 67;
  }

  /** The page at `v` is now mapped as asked. */
  ghost predicate MappedAs(m: Mem, t: int, v: nat, physical: nat, flags: nat) {
    && HasSpace(m, t) && InUser(v)
    && Lookup(m, t, PageOf(v)).Mapped? && Grants(Lookup(m, t, PageOf(v)).entry, physical, flags)
  }

  lemma FlagBits(x: nat)
    ensures x % 4 == 3 <==> x % 2 == 1 && x / 2 % 2 == 1
  {
  }

  lemma Halves(x: nat)
    ensures x / 4 == x / 2 / 2
  {
  }

  class Memory {
    const first: nat
    const kernel: nat
    const devices: nat
    var frames: seq<seq<byte>>
    var owner: seq<nat>
    var tasks: seq<Holder>
    ghost var uses: seq<Use>

    ghost function M(): Mem
      reads this
    {
      Mem(first, kernel, frames, uses, owner, tasks)
    }

    ghost predicate Valid()
      reads this
    {
      Inv(M())
    }

    /** Boot: every pool page is free, no slot is live; device windows have their fixed addresses. */
    constructor (first: nat, kernel: nat, devices: nat, ram: seq<seq<byte>>, pool: nat, slots: nat, ghost windows: map<nat, nat>)
      requires 0 < first && first + pool <= |ram| <= FRAMES && kernel < WORD
      requires forall f :: 0 <= f < |ram| ==> |ram[f]| == 4096
      requires forall f :: f in windows ==> !(first <= f < first + pool)
      ensures Valid() && frames == ram && |owner| == pool && |tasks| == slots
      ensures this.first == first && this.kernel == kernel && this.devices == devices
      ensures forall f :: f in windows && f < |ram| ==> uses[f] == Window(windows[f])
    {
      this.first, this.kernel, this.devices, frames := first, kernel, devices, ram;
      owner := seq(pool, _ => 0);
      tasks := seq(slots, _ => Holder(0, false, 0, 0, 0));
      uses := seq(|ram|, f => if first <= f < first + pool then Free else if f in windows then Window(windows[f]) else Other);
    }

    method PageOwner(pid: nat) returns (t: int)
      ensures -1 <= t < |tasks|
      ensures t >= 0 ==> tasks[t].live && tasks[t].pid == pid
      ensures t == -1 ==> pid == 0 || pid > PID_MAX || !Alive(tasks, pid)
    {
      if pid == 0 || pid > PID_MAX {
        return -1;
      }
      for i := 0 to |tasks|
        invariant forall k :: 0 <= k < i ==> !(tasks[k].live && tasks[k].pid == pid)
      {
        if tasks[i].pid == pid && tasks[i].live {
          return i;
        }
      }
      return -1;
    }

    /** A zeroed page charged to its owner, or -1 and no change. */
    method PageAlloc(pid: nat, ghost t: int, ghost u: Use) returns (page: int)
      requires Tabled(M()) && 0 <= t < |tasks| && tasks[t].live && tasks[t].pid == pid && PoolUse(u, pid)
      modifies this
      ensures Tabled(M()) && SameMaps(old(M()), M()) && (old(AllLeaves(M())) ==> AllLeaves(M()))
      ensures -1 <= page && |owner| == old(|owner|) && |tasks| == old(|tasks|)
      ensures page == -1 ==> M() == old(M()) && NoRoom(M(), t)
      ensures page != -1 ==>
        first <= page < first + |owner| && old(owner[page - first]) == 0 && M() == Allocated(old(M()), t, page - first, u)
      ensures page == -1 <==> Room(old(M()), t) == 0
      ensures page != -1 ==> Room(M(), t) == Room(old(M()), t) - 1
    {
      hide Room, Counted, NoLeak, Spaces, AllLeaves, SameMaps, Pool;
      var o := PageOwner(pid);
      AccountsPid(owner, tasks, t);
      assert Alive(tasks, pid) by { assert tasks[t].live && tasks[t].pid == pid; }
      OwnerUnique(M(), t, o);
      Extent(M());
      RoomIff(M(), t);
      if o < 0 || tasks[o].count >= tasks[o].limit {
        MapsRefl(M());
        return -1;
      }
      for i := 0 to |owner|
        invariant M() == old(M())
        invariant forall k :: 0 <= k < i ==> owner[k] != 0
      {
        if owner[i] == 0 {
          AllocKeeps(M(), t, i, u);
          RoomTaken(M(), t, i, u);
          owner := owner[i := pid];
          tasks := tasks[o := tasks[o].(count := tasks[o].count + 1)];
          frames := frames[first + i := Zeros(4096)];
          uses := uses[first + i := u];
          return first + i;
        }
      }
      MapsRefl(M());
      return -1;
    }

    /** Every page of `pid` is zeroed and freed, and its slot's count cleared. */
    method PagesFree(pid: nat)
      requires Pool(M())
      modifies this`frames, this`owner, this`tasks, this`uses
      ensures pid == 0 || pid > PID_MAX ==> M() == old(M())
      ensures 0 < pid <= PID_MAX ==> |tasks| == old(|tasks|) && M().(tasks := old(tasks)) == Scrubbed(old(M()), pid)
      ensures 0 < pid <= PID_MAX ==> forall k :: 0 <= k < |tasks| ==>
        tasks[k] == if old(tasks[k]).pid == pid then old(tasks[k]).(count := 0) else old(tasks[k])
    {
      hide Scrubbed, Scrubbing, Zeros, Pool;
      if pid == 0 || pid > PID_MAX {
        return;
      }
      ghost var m := M();
      Extent(m);
      ScrubbingStarts(m, pid);
      for i := 0 to |owner|
        invariant |owner| == |m.owner| && tasks == m.tasks
        invariant Scrubbing(m, M(), pid, i)
      {
        ScrubbingStep(m, M(), pid, i);
        if owner[i] == pid {
          frames := frames[first + i := Zeros(4096)];
          owner := owner[i := 0];
          uses := uses[first + i := Free];
        }
      }
      ScrubbingDone(m, M(), pid);
      ghost var n := M();
      for i := 0 to |tasks|
        invariant |tasks| == |m.tasks| && M().(tasks := m.tasks) == n
        invariant forall k :: 0 <= k < i ==> tasks[k] == if m.tasks[k].pid == pid then m.tasks[k].(count := 0) else m.tasks[k]
        invariant forall k :: i <= k < |tasks| ==> tasks[k] == m.tasks[k]
      {
        if tasks[i].pid == pid {
          tasks := tasks[i := tasks[i].(count := 0)];
        }
      }
    }

    /** A task dies: its slot stops being live before its pages go. */
    method Kill(t: int)
      requires Valid() && 0 <= t < |tasks| && tasks[t].live
      modifies this
      ensures Valid() && M() == Buried(old(M()), t)
      ensures Carried(old(M()), M(), t)
    {
      hide Counted, NoLeak, Spaces, AllLeaves, Translate, Scrubbed;
      ghost var m := M();
      BuryKeeps(m, t);
      AccountsPid(owner, tasks, t);
      var pid := tasks[t].pid;
      tasks := tasks[t := tasks[t].(live := false)];
      ghost var dead := M();
      assert Pool(dead);
      PagesFree(pid);
      ScrubbedTasks(m, dead, pid);
      assert tasks == m.tasks[t := m.tasks[t].(live := false, count := 0)];
      assert M() == Buried(m, t);
    }

    /** A slot is given to a new task. */
    method Admit(t: int, pid: nat, limit: nat)
      requires Valid() && 0 <= t < |tasks| && !tasks[t].live && 0 < pid <= PID_MAX
      requires forall k :: 0 <= k < |tasks| ==> tasks[k].pid != pid
      modifies this`tasks
      ensures Valid() && M() == Born(old(M()), t, pid, limit)
    {
      BirthKeeps(M(), t, pid, limit);
      tasks := tasks[t := Holder(pid, true, limit, 0, 0)];
    }

    /** An address space with no user page; on failure the pages taken stay charged to the task. */
    method SpaceNew(t: int) returns (ok: bool)
      requires Valid() && 0 <= t < |tasks| && tasks[t].live && tasks[t].root == 0 && devices < WORD
      modifies this
      ensures Valid() && |tasks| == old(|tasks|)
      ensures forall k :: 0 <= k < |tasks| && k != t ==> tasks[k] == old(tasks[k])
      ensures ok ==> HasSpace(M(), t) && forall vp :: 0 <= vp < VPAGES ==> Lookup(M(), t, vp) == Unmapped
      ensures !ok ==> tasks[t].root == 0
      ensures Carried(old(M()), M(), t)
    {
      hide Accounts, Spaces, AllLeaves, Translate, Pool, Tables, Put, Zeros, SameMaps, Carried, Allocated;
      var p4, p3 := TakeTop(t);
      if p4 < 0 || p3 < 0 {
        return false;
      }
      ghost var m := M();
      Extent(m);
      FillSpace(m, t, p4, p3, kernel, devices);
      frames := Put(frames, p4, 0, TableEntry(p3));
      frames := Put(frames, p3, 0, kernel);
      if devices != 0 {
        frames := Put(frames, p3, 3, devices);
      }
      CarriedTrans(old(M()), m, M(), t);
      ghost var n := M();
      RootKeeps(n, t, p4);
      tasks := tasks[t := tasks[t].(root := p4)];
      CarriedTrans(old(M()), n, M(), t);
      return true;
    }

    /** The two top pages of a space, both taken whether or not the first is had. */
    method TakeTop(t: int) returns (p4: int, p3: int)
      requires Valid() && 0 <= t < |tasks| && tasks[t].live
      modifies this
      ensures Valid() && |tasks| == old(|tasks|) && |uses| == |frames|
      ensures forall k :: 0 <= k < |tasks| && k != t ==> tasks[k] == old(tasks[k])
      ensures tasks[t] == old(tasks[t]).(count := tasks[t].count) && Carried(old(M()), M(), t)
      ensures p4 >= 0 && p3 >= 0 ==>
        && 0 < p4 < |frames| && p3 < |frames| && frames[p4] == Zeros(4096) && frames[p3] == Zeros(4096)
        && uses[p4] == Root(tasks[t].pid) && uses[p3] == Dir3(tasks[t].pid)
    {
      hide Accounts, Spaces, AllLeaves, Translate, Pool, Zeros, SameMaps, Carried;
      ghost var m := M();
      Extent(m);
      var pid := tasks[t].pid;
      AccountsPid(owner, tasks, t);
      p4 := PageAlloc(pid, t, Root(pid));
      ghost var m1 := M();
      Extent(m1);
      p3 := PageAlloc(pid, t, Dir3(pid));
      Extent(M());
      MapsTrans(m, m1, M());
      SpacesKept(m, M(), t);
      if p4 >= 0 && p3 >= 0 {
        FreshPages(m, m1, M(), t, p4 - first, p3 - first, Root(pid), Dir3(pid));
      }
    }

    /** Makes sure the level-2 table exists; with `create` unset nothing changes. */
    method Level2(t: int, create: bool) returns (ok: bool)
      requires Tabled(M()) && HasSpace(M(), t)
      modifies this
      ensures Tabled(M()) && SameMaps(old(M()), M()) && (old(AllLeaves(M())) ==> AllLeaves(M())) && HasSpace(M(), t)
      ensures Grown(old(uses), uses) && DataKept(old(M()), M())
      ensures ok == Present(Entry3(frames, tasks[t].root))
      ensures !create || old(Present(Entry3(frames, tasks[t].root))) ==> M() == old(M())
      ensures create && !ok ==> NoRoom(M(), t)
      ensures create && old(!Present(Entry3(frames, tasks[t].root))) ==>
        && (ok <==> Room(old(M()), t) > 0)
        && (ok ==> Room(M(), t) == Room(old(M()), t) - 1 && forall b :: 0 <= b < 512 ==> !Walked(M(), t, b))
    {
      hide Room, Accounts, Spaces, AllLeaves, Pool, Zeros, SameMaps, Entry1, FrameOf, TableEntry, Present, NoRoom, PutWord, Word;
      ghost var m := M();
      KeptRefl(m);
      WalkInside(m, t, 0);
      var p3 := FrameOf(Word(frames[tasks[t].root], 0));
      assert p3 == Upper(frames, tasks[t].root);
      ok := Present(Word(frames[p3], 1));
      if !ok && create {
        AccountsPid(owner, tasks, t);
        var p := PageAlloc(tasks[t].pid, t, Dir2(tasks[t].pid));
        ghost var n := M();
        if p >= 0 {
          Extent(m);
          WalkInside(n, t, 0);
          AllocWalk(m, t, p - first, Dir2(m.tasks[t].pid));
          AllocGrows(m, t, p - first, Dir2(m.tasks[t].pid));
          Link2Keeps(n, t, p);
          TablesPlain(n, t, 0);
          frames := Put(frames, p3, 1, TableEntry(p));
          SameRoom(n, M(), t);
          MapsTrans(m, n, M());
          DataKeptTrans(m, n, M());
          ok := true;
        }
      }
    }

    method Level1(t: int, b: nat, create: bool) returns (ok: bool)
      requires Tabled(M()) && HasSpace(M(), t) && Present(Entry3(frames, tasks[t].root)) && b < 512
      modifies this
      ensures Tabled(M()) && SameMaps(old(M()), M()) && (old(AllLeaves(M())) ==> AllLeaves(M())) && HasSpace(M(), t)
      ensures Grown(old(uses), uses) && DataKept(old(M()), M())
      ensures ok == Walked(M(), t, b)
      ensures !create || old(Walked(M(), t, b)) ==> M() == old(M())
      ensures create && !ok ==> NoRoom(M(), t)
      ensures create && old(!Walked(M(), t, b)) ==> (ok <==> Room(old(M()), t) > 0)
    {
      hide Room, Accounts, Spaces, AllLeaves, Pool, Zeros, SameMaps, Entry1, FrameOf, TableEntry, Present, NoRoom, PutWord, Word;
      ghost var m := M();
      KeptRefl(m);
      WalkInside(m, t, b);
      var p3 := FrameOf(Word(frames[tasks[t].root], 0));
      assert p3 == Upper(frames, tasks[t].root);
      var p2 := FrameOf(Word(frames[p3], 1));
      assert p2 == FrameOf(Entry3(frames, tasks[t].root));
      ok := Present(Word(frames[p2], b));
      if !ok && create {
        AccountsPid(owner, tasks, t);
        var p := PageAlloc(tasks[t].pid, t, Dir1(tasks[t].pid, b));
        ghost var n := M();
        if p >= 0 {
          Extent(m);
          WalkInside(n, t, b);
          AllocWalk(m, t, p - first, Dir1(m.tasks[t].pid, b));
          AllocGrows(m, t, p - first, Dir1(m.tasks[t].pid, b));
          Link1Keeps(n, t, b, p);
          TablesPlain(n, t, b);
          frames := Put(frames, p2, b, TableEntry(p));
          MapsTrans(m, n, M());
          DataKeptTrans(m, n, M());
          ok := true;
        }
      }
    }

    /** The leaf slot for a user address, or -1. */
    method Pte(t: int, v: nat, create: bool) returns (page: int, index: nat)
      requires Tabled(M()) && HasSpace(M(), t)
      modifies this
      ensures Tabled(M()) && SameMaps(old(M()), M()) && (old(AllLeaves(M())) ==> AllLeaves(M())) && HasSpace(M(), t)
      ensures Grown(old(uses), uses) && DataKept(old(M()), M())
      ensures page >= 0 ==>
        && InUser(v) && Walked(M(), t, PageOf(v) / 512) && page < |frames| && |frames[page]| == 4096
        && page == FrameOf(Entry2(frames, tasks[t].root, PageOf(v) / 512)) && index == PageOf(v) % 512
      ensures !create ==> M() == old(M()) && (page >= 0 <==> InUser(v) && Walked(M(), t, PageOf(v) / 512))
      ensures create && page < 0 && InUser(v) ==> NoRoom(M(), t) && !Walked(M(), t, PageOf(v) / 512)
      ensures create && InUser(v) ==> (page >= 0 <==> Room(old(M()), t) >= Missing(old(M()), t, PageOf(v) / 512))
      ensures !InUser(v) ==> M() == old(M())
    {
      hide Room, Accounts, Spaces, AllLeaves, Pool, SameMaps, Entry1, FrameOf, Present, PageOf, NoRoom;
      page, index := -1, 0;
      ghost var m := M();
      KeptRefl(m);
      if v < BASE || v >= LIMIT {
        return;
      }
      Indices(v);
      var a, b, c := v / 0x4000_0000, v / 0x20_0000 % 512, v / 4096 % 512;
      assert a == 1;
      var ok := Level2(t, create);
      if !ok {
        return;
      }
      ghost var n := M();
      ok := Level1(t, b, create);
      MapsTrans(m, n, M());
      DataKeptTrans(m, n, M());
      if !ok {
        return;
      }
      WalkInside(M(), t, b);
      page := FrameOf(Word(frames[FrameOf(Word(frames[FrameOf(Word(frames[tasks[t].root], 0))], a))], b));
      index := c;
    }

    /** Adds exactly one translation, or none. */
    method SpaceMap(t: int, v: nat, physical: nat, flags: nat) returns (r: Status)
      requires Tabled(M()) && HasSpace(M(), t) && physical < PHYSICAL
      modifies this
      ensures Tabled(M()) && HasSpace(M(), t) && Grown(old(uses), uses) && DataKept(old(M()), M())
      ensures r in {Ok, Denied, NoSpace, Invalid}
      ensures r == Denied <==> BadMapping(v, physical, flags)
      ensures r == Invalid <==> !BadMapping(v, physical, flags) && InUser(v) && Lookup(old(M()), t, PageOf(v)).Mapped?
      ensures !BadMapping(v, physical, flags) ==>
        (r == NoSpace <==> !InUser(v) || Room(old(M()), t) < Missing(old(M()), t, PageOf(v) / 512))
      ensures r == Ok ==> InUser(v) && OneMapped(old(M()), M(), t, PageOf(v), MappingEntry(physical, flags, false))
      ensures r == Ok ==> MappedAs(M(), t, v, physical, flags)
      ensures r == Ok && old(AllLeaves(M())) ==>
        (LeafOk(MappingEntry(physical, flags, false), old(uses), old(tasks[t].pid), PageOf(v)) ==> AllLeaves(M()))
      ensures r != Ok ==> SameMaps(old(M()), M()) && (old(AllLeaves(M())) ==> AllLeaves(M()))
      ensures r == Denied || !InUser(v) ==> M() == old(M())
    {
      hide Room, Missing, Tabled, AllLeaves, Entry1, FrameOf, Present, PageOf, NoRoom, LeafEntry, LeafOk, MappingEntry, Grants;
      ghost var m := M();
      KeptRefl(m);
      if v % 4096 != 0 || physical % 4096 != 0 || flags % 2 == 0 || flags / 2 % 4 == 3 {
        return Denied;
      }
      var page, index := Pte(t, v, true);
      ghost var n := M();
      if page < 0 {
        if InUser(v) {
          PteMissing(m, n, t, v);
        }
        return NoSpace;
      }
      ghost var vp := PageOf(v);
      LookupWord(n, t, vp);
      KeptLookup(m, n, t, vp);
      if Present(Word(frames[page], index)) {
        return Invalid;
      }
      var w := MappingEntry(physical, flags, false);
      MappingBits(physical, flags, false);
      SetKeeps(n, t, vp, w);
      TablesPlain(n, t, vp / 512);
      frames := Put(frames, page, index, w);
      OneAfterSame(m, n, M(), t, vp, w);
      NowMapped(m, M(), t, vp, w);
      MappingGrants(physical, flags);
      DataKeptTrans(m, n, M());
      if AllLeaves(m) && LeafOk(w, m.us, m.tasks[t].pid, vp) {
        LeafGrows(w, m.us, n.us, m.tasks[t].pid, vp);
        KeptTask(m, n, t);
      }
      return Ok;
    }

    /** A device page: mapped read-write, never executable, and marked so that copies refuse it. */
    method SpaceMapMmio(t: int, v: nat, physical: nat) returns (r: Status)
      requires Tabled(M()) && HasSpace(M(), t) && physical < PHYSICAL
      modifies this
      ensures Tabled(M()) && HasSpace(M(), t)
      ensures r == Ok ==> InUser(v) && OneMapped(old(M()), M(), t, PageOf(v), MappingEntry(physical, 3, true))
      ensures r == Ok ==> Lookup(M(), t, PageOf(v)).Mapped? && GrantsDevice(Lookup(M(), t, PageOf(v)).entry, physical)
      ensures r != Ok ==> SameMaps(old(M()), M())
      ensures old(AllLeaves(M())) && (r == Ok ==> physical / 4096 >= |frames|) ==> AllLeaves(M())
    {
      hide Tabled, AllLeaves, Entry1, FrameOf, Present, PageOf, NoRoom, LeafEntry, LeafOk, MappingEntry, Grants, GrantsDevice, Lookup;
      ghost var m := M();
      r := SpaceMap(t, v, physical, 3);
      if r == Ok {
        ghost var n, vp := M(), PageOf(v);
        MappedWalked(n, t, vp);
        var page, index := Pte(t, v, false);
        LookupWord(n, t, vp);
        var w := Word(frames[page], index) + 0x218;
        MmioEntry(physical);
        assert w == MappingEntry(physical, 3, true);
        SetKeeps(n, t, vp, w);
        frames := Put(frames, page, index, w);
        OneAfterOne(m, n, M(), t, vp, MappingEntry(physical, 3, false), w);
        NowMapped(m, M(), t, vp, w);
        DeviceGranted(physical);
        if AllLeaves(m) && physical / 4096 >= |frames| {
          MmioLeaves(m, M(), t, vp, physical);
        }
      }
    }

    /** A zeroed page of the task's own, mapped at `v`; a page taken in vain stays charged to the task. */
    method MapFresh(t: int, v: nat, flags: nat) returns (r: Status, page: int)
      requires Valid() && HasSpace(M(), t)
      modifies this
      ensures Valid() && HasSpace(M(), t)
      ensures r == Ok ==>
        && InUser(v) && first <= page < first + |owner| <= |frames| && |owner| == |old(owner)| && old(owner)[page - first] == 0 && owner[page - first] == tasks[t].pid
        && OneMapped(old(M()), M(), t, PageOf(v), MappingEntry(4096 * page, flags, false)) && AllZero(frames[page])
        && MappedAs(M(), t, v, 4096 * page, flags)
      ensures r != Ok ==> SameMaps(old(M()), M())
    {
      hide Accounts, Spaces, AllLeaves, Pool, Entry1, FrameOf, Present, PageOf, NoRoom, LeafEntry, LeafOk, SameMaps, MappingEntry, Lookup, MappedAs;
      ghost var m := M();
      Extent(m);
      var pid := tasks[t].pid;
      AccountsPid(owner, tasks, t);
      ghost var u := Data(pid, if InUser(v) then PageOf(v) else 0);
      page := PageAlloc(pid, t, u);
      ghost var n := M();
      if page < 0 {
        r := NoSpace;
        return;
      }
      KeptTask(m, n, t);
      AllocGrows(m, t, page - first, u);
      r := SpaceMap(t, v, 4096 * page, flags);
      if r == Ok {
        Extent(M());
        FreshLeaf(n.us, pid, PageOf(v), page, flags);
        OneAfterSame(m, n, M(), t, PageOf(v), MappingEntry(4096 * page, flags, false));
        DataKeptTrans(m, n, M());
      } else {
        MapsTrans(m, n, M());
      }
    }

    /** Every byte of the range is user memory the kernel may copy, page by page. */
    method UserRange(t: int, v: nat, n: nat, write: bool) returns (ok: bool)
      requires Tabled(M()) && HasSpace(M(), t)
      modifies this
      ensures M() == old(M())
      ensures ok <==> RangeOk(M(), t, v, n, write)
    {
      hide Tabled, Entry1, FrameOf, Present, Lookup, User, Mmio, Writable;
      ghost var m := M();
      if v < BASE || v >= LIMIT || n > LIMIT - v {
        return false;
      }
      if n == 0 {
        return true;
      }
      var end := (v + n - 1) / 4096;
      var p := v / 4096;
      while true
        invariant M() == m && v / 4096 <= p <= end
        invariant forall x :: v <= x < v + n && x / 4096 < p ==> Access(m, t, x, write)
        decreases end - p
      {
        assert BASE <= 4096 * p < LIMIT;
        var page, index := Pte(t, 4096 * p, false);
        ghost var x := if p == v / 4096 then v else 4096 * p;
        assert v <= x < v + n && PageOf(x) == PageOf(4096 * p) == p - 0x4_0000;
        if page < 0 {
          UnwalkedUnmapped(m, t, PageOf(x));
          assert !Access(m, t, x, write);
          return false;
        }
        LookupWord(m, t, PageOf(4096 * p));
        var w := Word(frames[page], index);
        if !Present(w) || !User(w) || Mmio(w) || (write && !Writable(w)) {
          assert !Access(m, t, x, write);
          return false;
        }
        assert forall y :: v <= y < v + n && y / 4096 == p ==> PageOf(y) == p - 0x4_0000 && Access(m, t, y, write);
        if p == end {
          return true;
        }
        p := p + 1;
      }
    }

    /** Where a mapped user byte lives. */
    method UserPhys(t: int, v: nat) returns (frame: nat)
      requires Valid() && HasSpace(M(), t) && Access(M(), t, v, false)
      modifies this
      ensures M() == old(M()) && Ram(M(), t, v) && frame == FrameAt(M(), t, v) < |frames| && |frames[frame]| == 4096
    {
      hide Tabled, AllLeaves, Entry1, FrameOf, Present, PageOf, LeafOk, Lookup;
      ghost var m := M();
      AccessWalked(m, t, v);
      AccessIsRam(m, t, v, false);
      var page, index := Pte(t, v, false);
      LookupWord(m, t, PageOf(v));
      frame := FrameOf(Word(frames[page], index));
    }

    method CopyIn(t: int, src: nat, n: nat) returns (r: Status, dst: seq<byte>)
      requires Valid() && HasSpace(M(), t)
      modifies this
      ensures M() == old(M())
      ensures r == if RangeOk(M(), t, src, n, false) then Ok else Denied
      ensures r == Ok ==> |dst| == n && Readable(M(), t, src, n) && forall i :: 0 <= i < n ==> dst[i] == At(M(), t, src + i)
    {
      hide Tabled, AllLeaves, FrameOf, PageOf, Lookup, Ram, FrameAt, Access;
      dst := [];
      var ok := UserRange(t, src, n, false);
      if !ok {
        return Denied, dst;
      }
      ghost var m := M();
      RangeReadable(m, t, src, n, false);
      while |dst| < n
        invariant M() == m && |dst| <= n
        invariant forall i :: 0 <= i < |dst| ==> dst[i] == At(m, t, src + i)
      {
        var at := src + |dst|;
        var k := 4096 - at % 4096;
        if k > n - |dst| {
          k := n - |dst|;
        }
        var f := UserPhys(t, at);
        ghost var done := |dst|;
        OnePage(m, t, at, k);
        dst := dst + frames[f][at % 4096..at % 4096 + k];
      }
      return Ok, dst;
    }

    /** Writes exactly the addressed user bytes. */
    method CopyOut(t: int, dst: nat, src: seq<byte>) returns (r: Status)
      requires Valid() && HasSpace(M(), t)
      modifies this
      ensures Valid() && r == if RangeOk(old(M()), t, dst, |src|, true) then Ok else Denied
      ensures r == Denied ==> M() == old(M())
      ensures r == Ok ==> Copied(old(M()), M(), t, dst, src) && OnlyData(old(M()), M(), tasks[t].pid)
    {
      hide Tabled, AllLeaves, FrameOf, PageOf, Lookup, Ram, FrameAt, Access, Copied, OnlyData;
      var ok := UserRange(t, dst, |src|, true);
      if !ok {
        return Denied;
      }
      ghost var m := M();
      var done := 0;
      NothingCopied(m, t, dst);
      while done < |src|
        invariant done <= |src| && Inv(M()) && M() == m.(fs := M().fs) && HasSpace(m, t)
        invariant RangeOk(M(), t, dst, |src|, true)
        invariant Copied(m, M(), t, dst, src[..done]) && OnlyData(m, M(), m.tasks[t].pid)
      {
        var at := dst + done;
        var k := 4096 - at % 4096;
        if k > |src| - done {
          k := |src| - done;
        }
        assert Access(M(), t, at, true);
        AccessRead(M(), t, at);
        var f := UserPhys(t, at);
        ghost var n := M();
        var chunk, off := src[done..done + k], at % 4096;
        PatchCopies(n, t, at, chunk);
        frames := frames[f := frames[f][..off] + chunk + frames[f][off + k..]];
        assert M() == Patched(n, f, off, chunk);
        CopiesCompose(m, n, M(), t, dst, src[..done], chunk);
        CopiedKeeps(n, M(), t, at, chunk);
        assert src[..done + k] == src[..done] + chunk;
        RangeCarried(n, M(), t, at, chunk, dst, |src|);
        DataTrans(m, n, M(), m.tasks[t].pid);
        done := done + k;
      }
      assert src[..done] == src;
      return Ok;
    }

    /** The page-limit system call: the first task may read a limit, a use, or set a limit no lower than the use. */
    method PageLimit(caller: nat, pid: nat, limit: nat, op: LimitOp) returns (r: Status, value: nat)
      requires Valid()
      modifies this`tasks
      ensures Valid() && |tasks| == old(|tasks|)
      ensures r == Denied <==> caller != 1
      ensures caller == 1 ==> (r == Invalid <==> BadLimit(pid, limit, op))
      ensures r == NotFound <==> caller == 1 && !BadLimit(pid, limit, op) && !Alive(old(tasks), pid)
      ensures r == Busy || r == Ok ==> exists t :: 0 <= t < |tasks| && LimitAnswer(old(tasks), tasks, t, pid, limit, op, r, value)
      ensures r != Ok ==> tasks == old(tasks)
    {
      if caller != 1 {
        return Denied, 0;
      }
      if BadLimit(pid, limit, op) {
        return Invalid, 0;
      }
      var t := PageOwner(pid);
      if t < 0 {
        return NotFound, 0;
      }
      ghost var before := tasks;
      assert Alive(before, pid) by { assert before[t].live && before[t].pid == pid; }
      if op.Used? {
        r, value := Ok, tasks[t].count;
      } else if op.Query? {
        r, value := Ok, tasks[t].limit;
      } else if tasks[t].count > limit {
        r, value := Busy, 0;
      } else {
        LimitKeeps(M(), t, limit);
        tasks := tasks[t := tasks[t].(limit := limit)];
        r, value := Ok, limit;
      }
      assert LimitAnswer(before, tasks, t, pid, limit, op, r, value);
    }
  }

  datatype LimitOp = Query | Set | Used | Unknown

  predicate BadLimit(pid: nat, limit: nat, op: LimitOp) {
    pid == 0 || pid > PID_MAX || op.Unknown? || limit > PAGE_LIMIT_MAX || (!op.Set? && limit != 0)
  }

  /** What the call did with the task in slot `t`, which is the one asked about. */
  predicate LimitAnswer(before: seq<Holder>, after: seq<Holder>, t: int, pid: nat, limit: nat, op: LimitOp, r: Status, value: nat) {
    && 0 <= t < |before| && before[t].live && before[t].pid == pid
    && match op
       case Query => r == Ok && value == before[t].limit && after == before
       case Used => r == Ok && value == before[t].count && after == before
       case Set =>
         if before[t].count > limit then r == Busy && after == before
         else r == Ok && value == limit && after == before[t := before[t].(limit := limit)]
       case Unknown => false
  }

  /** Neither the owners nor the tasks changed. */
  lemma SameRoom(m: Mem, n: Mem, t: int)
    requires 0 <= t < |m.tasks| && n.tasks == m.tasks && n.owner == m.owner
    ensures Room(n, t) == Room(m, t)
  {
  }

  /** Free pages may have been taken; no page in use was given another. */
  predicate Grown(us: seq<Use>, vs: seq<Use>) {
    |us| == |vs| && forall f :: 0 <= f < |us| && us[f] != Free ==> vs[f] == us[f]
  }

  predicate Plain(u: Use) { u.Data? || u.Window? || u.Other? }

  /** Pages in use that are no tables keep their bytes, and owned pages their owner. */
  predicate DataKept(m: Mem, n: Mem) {
    && |m.us| == |m.fs| == |n.fs| && |m.owner| == |n.owner|
    && (forall f :: 0 <= f < |m.us| && Plain(m.us[f]) ==> n.fs[f] == m.fs[f])
    && (forall i :: 0 <= i < |m.owner| && m.owner[i] != 0 ==> n.owner[i] == m.owner[i])
  }

  lemma DataKeptTrans(m: Mem, n: Mem, o: Mem)
    requires DataKept(m, n) && DataKept(n, o) && Grown(m.us, n.us)
    ensures DataKept(m, o)
  {
  }

  lemma AllocGrows(m: Mem, t: int, i: nat, u: Use)
    requires Pool(m) && 0 <= t < |m.tasks| && i < |m.owner| && m.owner[i] == 0
    ensures Grown(m.us, Allocated(m, t, i, u).us) && DataKept(m, Allocated(m, t, i, u))
  {
    assert m.us[m.first + i] == Free;
  }

  lemma LeafGrows(w: nat, us: seq<Use>, vs: seq<Use>, pid: nat, vp: nat)
    requires LeafOk(w, us, pid, vp) && Grown(us, vs)
    ensures LeafOk(w, vs, pid, vp)
  {
    hide FrameOf, User, Writable, NoExec, Mmio;
  }

  lemma OwnerUnique(m: Mem, t: int, o: int)
    requires Accounts(m.owner, m.tasks) && 0 <= t < |m.tasks| && m.tasks[t].live
    requires 0 <= o < |m.tasks| ==> m.tasks[o].live && m.tasks[o].pid == m.tasks[t].pid
    ensures 0 <= o < |m.tasks| ==> o == t
  {
    hide Counted, NoLeak;
    AccountsPid(m.owner, m.tasks, t);
  }

  /** The tables hold no data. */
  lemma TablesPlain(m: Mem, t: int, b: nat)
    requires Tabled(m) && HasSpace(m, t) && b < 512
    ensures var p3 := Upper(m.fs, m.tasks[t].root); p3 < |m.us| && !Plain(m.us[p3])
    ensures Present(Entry3(m.fs, m.tasks[t].root)) ==> var p2 := FrameOf(Entry3(m.fs, m.tasks[t].root)); p2 < |m.us| && !Plain(m.us[p2])
    ensures Walked(m, t, b) ==> var p1 := FrameOf(Entry2(m.fs, m.tasks[t].root, b)); p1 < |m.us| && !Plain(m.us[p1])
  {
    hide Accounts, Get, FrameOf, TableEntry;
    assert Tables(m.fs, m.us, m.kernel, m.tasks[t].pid, m.tasks[t].root);
    assert Links(Entry2(m.fs, m.tasks[t].root, b), m.us, Dir1(m.tasks[t].pid, b));
  }

  lemma AccessRead(m: Mem, t: int, x: nat)
    requires Access(m, t, x, true)
    ensures Access(m, t, x, false)
  {
    hide Translate;
  }

  lemma AccessWalked(m: Mem, t: int, x: nat)
    requires Tabled(m) && Access(m, t, x, false)
    ensures Walked(m, t, PageOf(x) / 512)
  {
    hide Translate;
    MappedWalked(m, t, PageOf(x));
  }

  ghost predicate Readable(m: Mem, t: int, v: nat, n: nat) {
    forall x :: v <= x < v + n ==> Ram(m, t, x) && |m.fs[FrameAt(m, t, x)]| == 4096
  }

  lemma RangeReadable(m: Mem, t: int, v: nat, n: nat, write: bool)
    requires Inv(m) && RangeOk(m, t, v, n, write)
    ensures Readable(m, t, v, n)
  {
    hide Inv, Access, FrameOf, Lookup;
    forall x | v <= x < v + n
      ensures Ram(m, t, x) && |m.fs[FrameAt(m, t, x)]| == 4096
    {
      AccessIsRam(m, t, x, write);
    }
  }

  /** Bytes of one page live in one frame, at consecutive offsets. */
  lemma OnePage(m: Mem, t: int, v: nat, k: nat)
    requires Readable(m, t, v, k) && v % 4096 + k <= 4096 && k > 0
    ensures Ram(m, t, v) && |m.fs[FrameAt(m, t, v)]| == 4096
    ensures forall x :: v <= x < v + k ==> At(m, t, x) == m.fs[FrameAt(m, t, v)][x - v + v % 4096]
  {
    hide Lookup, FrameOf, PageOf;
    assert Ram(m, t, v);
    forall x | v <= x < v + k
      ensures At(m, t, x) == m.fs[FrameAt(m, t, v)][x - v + v % 4096]
    {
      assert Ram(m, t, x);
      InPage(v, x, k);
      SamePage(v, x, k);
    }
  }

  lemma NothingCopied(m: Mem, t: int, dst: nat)
    requires Inv(m)
    ensures Copied(m, m, t, dst, []) && forall pid :: OnlyData(m, m, pid)
  {
    hide Translate, FrameOf, Accounts, Spaces, AllLeaves;
  }

  /** A copy does not change what may be copied. */
  lemma RangeCarried(m: Mem, n: Mem, t: int, at: nat, chunk: seq<byte>, v: nat, k: nat)
    requires Copied(m, n, t, at, chunk) && RangeOk(m, t, v, k, true) && HasSpace(m, t)
    ensures RangeOk(n, t, v, k, true)
  {
    hide Lookup, Inv, PageOf, User, Mmio, Writable;
    forall x | v <= x < v + k
      ensures Access(n, t, x, true)
    {
      assert Access(m, t, x, true);
      KeptLookup(m, n, t, PageOf(x));
    }
  }

  lemma CopiedKeeps(m: Mem, n: Mem, t: int, at: nat, chunk: seq<byte>)
    requires Copied(m, n, t, at, chunk)
    ensures Inv(n)
  {
  }

  lemma DataTrans(m: Mem, n: Mem, o: Mem, pid: nat)
    requires OnlyData(m, n, pid) && OnlyData(n, o, pid) && n.us == m.us
    ensures OnlyData(m, o, pid)
  {
  }

  /** A mapped page has its tables. */
  lemma MappedWalked(m: Mem, t: int, vp: nat)
    requires Tabled(m) && HasSpace(m, t) && vp < VPAGES && Lookup(m, t, vp).Mapped?
    ensures Walked(m, t, vp / 512)
  {
    if !Walked(m, t, vp / 512) {
      UnwalkedUnmapped(m, t, vp);
    }
  }

  lemma MmioEntry(physical: nat)
    requires physical < PHYSICAL
    ensures MappingEntry(physical, 3, true) == MappingEntry(physical, 3, false) + 0x218
    ensures var w := MappingEntry(physical, 3, true); Present(w) && w < WORD
  {
    MappingBits(physical, 3, true);
  }

  lemma OneAfterOne(m: Mem, n: Mem, o: Mem, t: int, vp: nat, w: nat, z: nat)
    requires OneMapped(m, n, t, vp, w) && OneMapped(n, o, t, vp, z)
    ensures OneMapped(m, o, t, vp, z)
  {
    hide Translate;
    forall k, q | HasSpace(m, k) && 0 <= q < VPAGES
      ensures Lookup(o, k, q) == if k == t && q == vp then Mapped(z) else Lookup(m, k, q)
    {
      assert HasSpace(n, k);
    }
  }

  lemma MmioLeaves(m: Mem, n: Mem, t: int, vp: nat, physical: nat)
    requires Inv(m) && Tabled(n) && Grown(m.us, n.us) && physical < PHYSICAL && physical / 4096 >= |m.us| && vp < VPAGES
    requires HasSpace(m, t) && OneMapped(m, n, t, vp, MappingEntry(physical, 3, true))
    ensures AllLeaves(n)
  {
    hide Translate, Tabled, FrameOf, LeafEntry, User, Writable, NoExec, Mmio, MappingEntry;
    MappingBits(physical, 3, true);
    forall k | HasSpace(n, k)
      ensures Leaves(n.fs, n.us, n.tasks[k].pid, n.tasks[k].root)
    {
      assert m.tasks[k] == n.tasks[k].(count := m.tasks[k].count);
      assert HasSpace(m, k);
      forall q | 0 <= q < VPAGES && Translate(n.fs, n.tasks[k].root, q).Mapped?
        ensures LeafOk(Translate(n.fs, n.tasks[k].root, q).entry, n.us, n.tasks[k].pid, q)
      {
        assert Lookup(n, k, q) == if k == t && q == vp then Mapped(MappingEntry(physical, 3, true)) else Lookup(m, k, q);
        if k != t || q != vp {
          assert LeafOk(Translate(m.fs, m.tasks[k].root, q).entry, m.us, m.tasks[k].pid, q);
          LeafGrows(Lookup(m, k, q).entry, m.us, n.us, m.tasks[k].pid, q);
        }
      }
    }
  }

  lemma FreshLeaf(us: seq<Use>, pid: nat, vp: nat, page: nat, flags: nat)
    requires page < |us| <= FRAMES && us[page] == Data(pid, vp) && flags / 2 % 4 != 3
    ensures LeafOk(MappingEntry(4096 * page, flags, false), us, pid, vp)
  {
    hide FrameOf, LeafEntry, User, Writable, NoExec, Mmio, MappingEntry;
    MappingBits(4096 * page, flags, false);
  }

  /** The mappings that share memory: read-only pages outside the pool and device windows at their address. */
  lemma SharedLeaf(us: seq<Use>, pid: nat, vp: nat, physical: nat)
    requires physical / 4096 < |us| <= FRAMES
    ensures us[physical / 4096] == Other ==> LeafOk(MappingEntry(physical, 1, false), us, pid, vp)
    ensures us[physical / 4096] == Window(vp) ==> LeafOk(MappingEntry(physical, 3, false), us, pid, vp)
  {
    hide FrameOf, LeafEntry, User, Writable, NoExec, Mmio, MappingEntry;
    MappingBits(physical, 1, false);
    MappingBits(physical, 3, false);
  }

  lemma NowMapped(m: Mem, n: Mem, t: int, vp: nat, w: nat)
    requires OneMapped(m, n, t, vp, w) && HasSpace(m, t) && vp < VPAGES
    ensures HasSpace(n, t) && Lookup(n, t, vp) == Mapped(w)
  {
    hide Translate;
  }

  lemma KeptTask(m: Mem, n: Mem, t: int)
    requires SameMaps(m, n) && HasSpace(m, t)
    ensures n.tasks[t].pid == m.tasks[t].pid && n.tasks[t].root == m.tasks[t].root && HasSpace(n, t)
  {
  }

  lemma KeptLookup(m: Mem, n: Mem, t: int, vp: nat)
    requires SameMaps(m, n) && HasSpace(m, t) && vp < VPAGES
    ensures HasSpace(n, t) && Lookup(n, t, vp) == Lookup(m, t, vp)
  {
  }

  /** The leaf slot holds the translation. */
  lemma LookupWord(m: Mem, t: int, vp: nat)
    requires Tabled(m) && Walked(m, t, vp / 512) && vp < VPAGES
    ensures var p1 := FrameOf(Entry2(m.fs, m.tasks[t].root, vp / 512));
            && p1 < |m.fs| && |m.fs[p1]| == 4096
            && Lookup(m, t, vp) == if Present(Word(m.fs[p1], vp % 512)) then Mapped(Word(m.fs[p1], vp % 512)) else Unmapped
  {
    hide FrameOf, Word, Present, Entry2;
    WalkInside(m, t, vp / 512);
  }

  /** A walk that could not be completed ends where nothing was mapped. */
  lemma PteMissing(m: Mem, n: Mem, t: int, v: nat)
    requires Tabled(n) && SameMaps(m, n) && HasSpace(m, t) && InUser(v) && !Walked(n, t, PageOf(v) / 512)
    ensures Lookup(m, t, PageOf(v)) == Unmapped
  {
    KeptLookup(m, n, t, PageOf(v));
    UnwalkedUnmapped(n, t, PageOf(v));
  }

  lemma OneAfterSame(m: Mem, n: Mem, o: Mem, t: int, vp: nat, w: nat)
    requires SameMaps(m, n) && OneMapped(n, o, t, vp, w)
    ensures OneMapped(m, o, t, vp, w)
  {
    hide Translate;
    forall k, q | HasSpace(m, k) && 0 <= q < VPAGES
      ensures Lookup(o, k, q) == if k == t && q == vp then Mapped(w) else Lookup(m, k, q)
    {
      KeptLookup(m, n, k, q);
    }
  }

  /** A newly taken page is no table of the space yet. */
  lemma AllocWalk(m: Mem, t: int, i: nat, u: Use)
    requires Tabled(m) && HasSpace(m, t) && i < |m.owner| && m.owner[i] == 0 && PoolUse(u, m.tasks[t].pid)
    ensures var n := Allocated(m, t, i, u);
            && Upper(n.fs, m.tasks[t].root) == Upper(m.fs, m.tasks[t].root)
            && Entry3(n.fs, m.tasks[t].root) == Entry3(m.fs, m.tasks[t].root)
            && (forall b :: 0 <= b < 512 ==> Entry2(n.fs, m.tasks[t].root, b) == Entry2(m.fs, m.tasks[t].root, b))
            && n.us[m.first + i] == u && AllZero(n.fs[m.first + i])
  {
    hide Accounts, Tables, Entry2, Entry3;
    AllocUntouched(m, t, i, u, m.tasks[t].pid);
    var n := Allocated(m, t, i, u);
    SameWalk(m.fs, m.us, n.fs, n.us, m.kernel, m.tasks[t].pid, m.tasks[t].root);
  }

  lemma Extent(m: Mem)
    requires Pool(m)
    ensures 0 < m.first && m.first + |m.owner| <= |m.fs| == |m.us| <= FRAMES && Sized(m.fs, m.us) && m.kernel < WORD
  {
  }

  lemma MapsRefl(m: Mem)
    ensures SameMaps(m, m)
  {
  }

  lemma KeptRefl(m: Mem)
    requires Tabled(m)
    ensures SameMaps(m, m) && Grown(m.us, m.us) && DataKept(m, m)
  {
    hide Accounts, Spaces, Translate;
  }

  lemma SpacesKept(m: Mem, n: Mem, t: int)
    requires SameMaps(m, n)
    ensures Carried(m, n, t)
  {
    hide Translate;
    forall k, vp | HasSpace(m, k) && k != t && 0 <= vp < VPAGES
      ensures HasSpace(n, k) && Lookup(n, k, vp) == Lookup(m, k, vp)
    {
      assert m.tasks[k] == n.tasks[k].(count := m.tasks[k].count);
    }
  }

  lemma CarriedTrans(m: Mem, n: Mem, o: Mem, t: int)
    requires Carried(m, n, t) && Carried(n, o, t)
    ensures Carried(m, o, t)
  {
    hide Translate;
    forall k, vp | HasSpace(m, k) && k != t && 0 <= vp < VPAGES
      ensures HasSpace(o, k) && Lookup(o, k, vp) == Lookup(m, k, vp)
    {
      assert HasSpace(n, k) && Lookup(n, k, vp) == Lookup(m, k, vp);
    }
  }

  lemma MapsTrans(m: Mem, n: Mem, o: Mem)
    requires SameMaps(m, n) && SameMaps(n, o)
    ensures SameMaps(m, o)
  {
    hide Translate;
    forall k, vp | HasSpace(m, k) && 0 <= vp < VPAGES
      ensures Lookup(o, k, vp) == Lookup(m, k, vp)
    {
      assert HasSpace(n, k) && Lookup(n, k, vp) == Lookup(m, k, vp);
    }
  }

  /** The freeing loop after `i` pool pages. */
  ghost predicate Scrubbing(m: Mem, n: Mem, pid: nat, i: nat) {
    && n.first == m.first && n.kernel == m.kernel && n.tasks == m.tasks
    && |n.fs| == |m.fs| == |m.us| == |n.us| && |n.owner| == |m.owner| && m.first + |m.owner| <= |m.fs| && i <= |m.owner|
    && (forall k :: 0 <= k < |m.owner| ==> n.owner[k] == if k < i && m.owner[k] == pid then 0 else m.owner[k])
    && (forall f :: 0 <= f < |m.fs| ==> n.fs[f] == if f < m.first + i && Holds(m, f, pid) then Zeros(4096) else m.fs[f])
    && (forall f :: 0 <= f < |m.fs| ==> n.us[f] == if f < m.first + i && Holds(m, f, pid) then Free else m.us[f])
  }

  lemma ScrubbingStarts(m: Mem, pid: nat)
    requires Pool(m)
    ensures Scrubbing(m, m, pid, 0)
  {
  }

  lemma ScrubbingStep(m: Mem, n: Mem, pid: nat, i: nat)
    requires Scrubbing(m, n, pid, i) && i < |m.owner| && pid != 0
    ensures |n.owner| == |m.owner| && n.first + |n.owner| <= |n.fs| == |n.us|
    ensures n.owner[i] != pid ==> Scrubbing(m, n, pid, i + 1)
    ensures n.owner[i] == pid ==>
      Scrubbing(m, n.(fs := n.fs[n.first + i := Zeros(4096)], us := n.us[n.first + i := Free], owner := n.owner[i := 0]), pid, i + 1)
  {
    hide Zeros;
  }

  lemma ScrubbingDone(m: Mem, n: Mem, pid: nat)
    requires Pool(m) && Scrubbing(m, n, pid, |m.owner|)
    ensures n == Scrubbed(m, pid)
  {
    hide Pool;
    var s := Scrubbed(m, pid);
    assert n.owner == s.owner;
    assert n.fs == s.fs;
    assert n.us == s.us;
  }

  /** Freeing looks only at the owner table. */
  lemma ScrubbedTasks(m: Mem, n: Mem, pid: nat)
    requires Pool(m) && Pool(n) && n == m.(tasks := n.tasks)
    ensures Scrubbed(n, pid).(tasks := m.tasks) == Scrubbed(m, pid)
  {
    hide Pool;
    var a, b := Scrubbed(n, pid), Scrubbed(m, pid);
    assert a.owner == b.owner;
    assert a.fs == b.fs;
    assert a.us == b.us;
  }

  /** Two successive allocations give two distinct zeroed pages. */
  lemma FreshPages(m: Mem, n: Mem, o: Mem, t: int, i: nat, j: nat, u: Use, w: Use)
    requires 0 <= t < |m.tasks| && i < |m.owner| && m.first + i < |m.fs| == |m.us|
    requires n == Allocated(m, t, i, u) && j < |n.owner| && n.owner[j] == 0 && m.tasks[t].pid != 0
    requires m.first + j < |m.fs| && o == Allocated(n, t, j, w)
    ensures i != j
    ensures o.us[m.first + i] == u && o.us[m.first + j] == w
    ensures o.fs[m.first + i] == Zeros(4096) && o.fs[m.first + j] == Zeros(4096)
  {
  }

  /** Filling the two top pages of a space that is not installed yet. */
  lemma FillSpace(m: Mem, t: int, p4: nat, p3: nat, kernel: nat, devices: nat)
    requires Inv(m) && 0 <= t < |m.tasks| && m.tasks[t].live && m.tasks[t].root == 0
    requires p4 < |m.fs| && p3 < |m.fs| && m.us[p4] == Root(m.tasks[t].pid) && m.us[p3] == Dir3(m.tasks[t].pid)
    requires m.fs[p4] == Zeros(4096) && m.fs[p3] == Zeros(4096) && kernel == m.kernel < WORD && devices < WORD
    ensures var a := Put(m.fs, p4, 0, TableEntry(p3));
            var b := Put(a, p3, 0, kernel);
            var c := if devices != 0 then Put(b, p3, 3, devices) else b;
            var n := m.(fs := c);
            && Inv(n) && Tables(n.fs, n.us, n.kernel, n.tasks[t].pid, p4)
            && (forall vp :: 0 <= vp < VPAGES ==> Translate(n.fs, p4, vp) == Unmapped)
            && Carried(m, n, t)
  {
    hide Accounts, Translate, PutWord, Get, FrameOf, TableEntry, AllLeaves, Spaces, Pool, Tables;
    Extent(m);
    TableBits(p3);
    var e := TableEntry(p3);
    var a := Written(m, p4, 0, e);
    WriteKeepsOthers(m, t, p4, 0, e);
    Extent(a);
    var b := Written(a, p3, 0, kernel);
    WriteKeepsOthers(a, t, p3, 0, kernel);
    Extent(b);
    var n := if devices != 0 then Written(b, p3, 3, devices) else b;
    WriteKeepsOthers(b, t, p3, 3, devices);
    Extent(n);
    forall f, i | f in {p4, p3} && 0 <= i < 2
      ensures Get(n.fs, f, i) == if f == p4 && i == 0 then e else if f == p3 && i == 0 then kernel else 0
    {
      ZeroReads(m.fs, f, i);
      PutReads(m.fs, p4, 0, e, f, i);
      PutReads(a.fs, p3, 0, kernel, f, i);
      PutReads(b.fs, p3, 3, devices, f, i);
    }
    SpaceBorn(n.fs, n.us, n.kernel, n.tasks[t].pid, p4, p3);
    CarriedTrans(m, a, b, t);
    CarriedTrans(m, b, n, t);
  }
}
