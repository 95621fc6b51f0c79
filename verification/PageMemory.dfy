/** The page pool, its owners and quotas, and every address space built from it. */
module PageMemory {
  import opened Bytes
  import opened PageTables

  const BASE: nat := 0x4000_0000
  const LIMIT: nat := 0x8000_0000
  const PID_MAX: nat := 0x7fff_ffff

  /** The memory side of a task slot; `root == 0` before its space exists. */
  datatype Holder = Holder(pid: nat, live: bool, limit: nat, count: nat, root: nat)

  /** Pool pages are the frames from `first`, one per owner; `kernel` is the shared level-3 entry. */
  datatype Mem = Mem(first: nat, kernel: nat, fs: seq<seq<byte>>, us: seq<Use>, owner: seq<nat>, tasks: seq<Holder>)

  predicate PoolUse(u: Use, pid: nat) {
    match u
    case Free => pid == 0
    case Window(_) => false
    case Other => false
    case _ => u.pid == pid != 0
  }

  predicate Pool(m: Mem) {
    && Sized(m.fs, m.us) && 0 < m.first && m.first + |m.owner| <= |m.fs| && m.kernel < WORD
    && (forall f :: 0 <= f < |m.us| ==>
          if m.first <= f < m.first + |m.owner| then PoolUse(m.us[f], m.owner[f - m.first]) else m.us[f].Window? || m.us[f].Other?)
  }

  function Owned(owner: seq<nat>, pid: nat): nat {
    if owner == [] then 0 else Owned(owner[..|owner| - 1], pid) + (if owner[|owner| - 1] == pid then 1 else 0)
  }

  /** Every live task's count is the number of pages it owns, within its limit. */
  ghost predicate Counted(owner: seq<nat>, tasks: seq<Holder>) {
    forall t :: 0 <= t < |tasks| && tasks[t].live ==>
      0 < tasks[t].pid <= PID_MAX && tasks[t].count == Owned(owner, tasks[t].pid) <= tasks[t].limit
  }

  ghost predicate Unique(tasks: seq<Holder>) {
    forall t, u :: 0 <= t < u < |tasks| && tasks[t].pid != 0 ==> tasks[t].pid != tasks[u].pid
  }

  predicate Alive(tasks: seq<Holder>, pid: nat) {
    exists t :: 0 <= t < |tasks| && tasks[t].live && tasks[t].pid == pid
  }

  /** No page is owned by a task that is gone. */
  ghost predicate NoLeak(owner: seq<nat>, tasks: seq<Holder>) {
    forall i :: 0 <= i < |owner| && owner[i] != 0 ==> Alive(tasks, owner[i])
  }

  ghost predicate Accounts(owner: seq<nat>, tasks: seq<Holder>) {
    Counted(owner, tasks) && Unique(tasks) && NoLeak(owner, tasks)
  }

  predicate HasSpace(m: Mem, t: int) {
    0 <= t < |m.tasks| && m.tasks[t].live && m.tasks[t].root != 0
  }

  ghost predicate Spaces(m: Mem) {
    forall t :: HasSpace(m, t) ==> Tables(m.fs, m.us, m.kernel, m.tasks[t].pid, m.tasks[t].root)
  }

  ghost predicate Tabled(m: Mem) { Pool(m) && Accounts(m.owner, m.tasks) && Spaces(m) }

  ghost predicate AllLeaves(m: Mem) {
    forall t :: HasSpace(m, t) ==> Leaves(m.fs, m.us, m.tasks[t].pid, m.tasks[t].root)
  }

  ghost predicate Inv(m: Mem) { Tabled(m) && AllLeaves(m) }

  function Lookup(m: Mem, t: int, vp: nat): Mapping
    requires HasSpace(m, t)
  {
    Translate(m.fs, m.tasks[t].root, vp)
  }

  /** The same tasks with the same spaces; only quota counters may differ. */
  predicate SameTasks(a: seq<Holder>, b: seq<Holder>) {
    |a| == |b| && forall t :: 0 <= t < |a| ==> a[t] == b[t].(count := a[t].count)
  }

  /** Every translation of every space is unchanged. */
  ghost predicate SameMaps(m: Mem, n: Mem) {
    && SameTasks(m.tasks, n.tasks) && n.first == m.first && n.kernel == m.kernel && |n.fs| == |m.fs| && |n.owner| == |m.owner|
    && forall t, vp :: HasSpace(m, t) && 0 <= vp < VPAGES ==> Lookup(n, t, vp) == Lookup(m, t, vp)
  }

  /** Every space but that of `t` is there with every translation it had. */
  ghost predicate Carried(m: Mem, n: Mem, t: int) {
    && (forall k :: HasSpace(m, k) && k != t ==> HasSpace(n, k))
    && (forall k, vp :: HasSpace(m, k) && k != t && 0 <= vp < VPAGES ==> Lookup(n, k, vp) == Lookup(m, k, vp))
  }

  /** No new page can be had for this task. */
  predicate NoRoom(m: Mem, t: int) {
    0 <= t < |m.tasks| && (m.tasks[t].count >= m.tasks[t].limit || forall i :: 0 <= i < |m.owner| ==> m.owner[i] != 0)
  }

  /** How many more pages can be had for this task. */
  function Room(m: Mem, t: int): nat
    requires 0 <= t < |m.tasks|
  {
    if m.tasks[t].count >= m.tasks[t].limit then 0 else Min(m.tasks[t].limit - m.tasks[t].count, Owned(m.owner, 0))
  }

  function Min(a: nat, b: nat): nat { if a < b then a else b }

  /** How many tables a walk to slot `b` of the second level would have to create. */
  function Missing(m: Mem, t: int, b: nat): nat
    requires HasSpace(m, t)
  {
    if Walked(m, t, b) then 0 else if Present(Entry3(m.fs, m.tasks[t].root)) then 1 else 2
  }

  lemma {:induction false} SomeFree(owner: seq<nat>, i: nat)
    requires i < |owner| && owner[i] == 0
    ensures Owned(owner, 0) > 0
  {
    var n := |owner| - 1;
    if i < n {
      SomeFree(owner[..n], i);
    }
  }

  lemma RoomIff(m: Mem, t: int)
    requires 0 <= t < |m.tasks|
    ensures NoRoom(m, t) <==> Room(m, t) == 0
  {
    hide Owned;
    if forall i :: 0 <= i < |m.owner| ==> m.owner[i] != 0 {
      OwnedNone(m.owner, 0);
    } else {
      var i :| 0 <= i < |m.owner| && m.owner[i] == 0;
      SomeFree(m.owner, i);
    }
  }

  lemma RoomTaken(m: Mem, t: int, i: nat, u: Use)
    requires 0 <= t < |m.tasks| && i < |m.owner| && m.first + i < |m.fs| == |m.us| && m.owner[i] == 0 && m.tasks[t].pid != 0
    requires m.tasks[t].count < m.tasks[t].limit
    ensures Room(m, t) > 0 && Room(Allocated(m, t, i, u), t) == Room(m, t) - 1
  {
    hide Owned;
    SomeFree(m.owner, i);
    OwnedUpdate(m.owner, i, m.tasks[t].pid, 0);
  }

  // ------------------------------------------------------- isolation facts

  /**
   In every state: a mapped pool page belongs to the mapping task, is not one of
   anybody's page tables, and is mapped at one address only; nothing is both
   writable and executable; so two spaces never share a pool page.
   */
  lemma Isolation(m: Mem, t: int, vp: nat, u: int, vq: nat)
    requires Inv(m) && HasSpace(m, t) && HasSpace(m, u) && vp < VPAGES && vq < VPAGES
    requires Lookup(m, t, vp).Mapped? && Lookup(m, u, vq).Mapped?
    ensures var w := Lookup(m, t, vp).entry;
            && User(w) && !(Writable(w) && !NoExec(w))
            && (m.first <= FrameOf(w) < m.first + |m.owner| ==>
                  && m.owner[FrameOf(w) - m.first] == m.tasks[t].pid
                  && (forall q :: !TableOf(m.us[FrameOf(w)], q))
                  && (FrameOf(Lookup(m, u, vq).entry) == FrameOf(w) ==> t == u && vp == vq))
  {
    hide Translate, FrameOf, Tables;
    assert LeafOk(Lookup(m, t, vp).entry, m.us, m.tasks[t].pid, vp);
    assert LeafOk(Lookup(m, u, vq).entry, m.us, m.tasks[u].pid, vq);
  }

  // --------------------------------------------------------- counting

  lemma {:induction false} OwnedUpdate(owner: seq<nat>, i: nat, pid: nat, q: nat)
    requires i < |owner|
    ensures Owned(owner[i := pid], q) == Owned(owner, q) - (if owner[i] == q then 1 else 0) + (if pid == q then 1 else 0)
  {
    var n := |owner| - 1;
    if i < n {
      OwnedUpdate(owner[..n], i, pid, q);
      assert owner[i := pid][..n] == owner[..n][i := pid];
    } else {
      assert owner[i := pid][..n] == owner[..n];
    }
  }

  lemma {:induction false} OwnedNone(owner: seq<nat>, pid: nat)
    requires forall i :: 0 <= i < |owner| ==> owner[i] != pid
    ensures Owned(owner, pid) == 0
  {
    if owner != [] {
      OwnedNone(owner[..|owner| - 1], pid);
    }
  }

  lemma {:induction false} OwnedSame(a: seq<nat>, b: seq<nat>, pid: nat)
    requires |a| == |b| && forall i :: 0 <= i < |a| ==> (a[i] == pid <==> b[i] == pid)
    ensures Owned(a, pid) == Owned(b, pid)
  {
    if a != [] {
      OwnedSame(a[..|a| - 1], b[..|b| - 1], pid);
    }
  }

  // ------------------------------------------------------------ allocation

  /** The state after handing pool page `i` to task `t`. */
  function Allocated(m: Mem, t: int, i: nat, u: Use): Mem
    requires 0 <= t < |m.tasks| && i < |m.owner| && m.first + i < |m.fs| == |m.us|
  {
    m.(fs := m.fs[m.first + i := Zeros(4096)], us := m.us[m.first + i := u], owner := m.owner[i := m.tasks[t].pid],
       tasks := m.tasks[t := m.tasks[t].(count := m.tasks[t].count + 1)])
  }

  lemma AllocAccounts(owner: seq<nat>, tasks: seq<Holder>, t: int, i: nat)
    requires Accounts(owner, tasks) && 0 <= t < |tasks| && tasks[t].live && tasks[t].count < tasks[t].limit
    requires i < |owner| && owner[i] == 0
    ensures Accounts(owner[i := tasks[t].pid], tasks[t := tasks[t].(count := tasks[t].count + 1)])
  {
    hide Owned;
    var o, ts := owner[i := tasks[t].pid], tasks[t := tasks[t].(count := tasks[t].count + 1)];
    forall k | 0 <= k < |ts| && ts[k].live
      ensures 0 < ts[k].pid <= PID_MAX && ts[k].count == Owned(o, ts[k].pid) <= ts[k].limit
    {
      OwnedUpdate(owner, i, tasks[t].pid, tasks[k].pid);
    }
    forall k | 0 <= k < |o| && o[k] != 0
      ensures Alive(ts, o[k])
    {
      if k == i {
        assert ts[t].live && ts[t].pid == o[k];
      } else {
        assert Alive(tasks, owner[k]);
        var j :| 0 <= j < |tasks| && tasks[j].live && tasks[j].pid == owner[k];
        assert ts[j].live && ts[j].pid == o[k];
      }
    }
  }

  lemma AllocKeeps(m: Mem, t: int, i: nat, u: Use)
    requires Tabled(m) && 0 <= t < |m.tasks| && m.tasks[t].live && m.tasks[t].count < m.tasks[t].limit
    requires i < |m.owner| && m.owner[i] == 0 && PoolUse(u, m.tasks[t].pid)
    ensures var n := Allocated(m, t, i, u);
            Tabled(n) && SameMaps(m, n) && (AllLeaves(m) ==> AllLeaves(n))
  {
    hide Accounts, Tables, Translate, Leaves, TableOf;
    var n := Allocated(m, t, i, u);
    AccountsPid(m.owner, m.tasks, t);
    AllocAccounts(m.owner, m.tasks, t, i);
    AllocPool(m, t, i, u);
    forall k | HasSpace(n, k)
      ensures Tables(n.fs, n.us, n.kernel, n.tasks[k].pid, n.tasks[k].root)
      ensures forall vp :: 0 <= vp < VPAGES ==> Lookup(n, k, vp) == Lookup(m, k, vp)
      ensures AllLeaves(m) ==> Leaves(n.fs, n.us, n.tasks[k].pid, n.tasks[k].root)
    {
      assert HasSpace(m, k);
      AllocUntouched(m, t, i, u, m.tasks[k].pid);
      SameWalk(m.fs, m.us, n.fs, n.us, m.kernel, m.tasks[k].pid, m.tasks[k].root);
      if AllLeaves(m) {
        SameLeaves(m.fs, m.us, n.fs, n.us, m.tasks[k].pid, m.tasks[k].root);
      }
    }
  }

  lemma AccountsPid(owner: seq<nat>, tasks: seq<Holder>, t: int)
    requires Accounts(owner, tasks) && 0 <= t < |tasks| && tasks[t].live
    ensures 0 < tasks[t].pid <= PID_MAX && tasks[t].count <= tasks[t].limit
  {
  }

  lemma AllocPool(m: Mem, t: int, i: nat, u: Use)
    requires Pool(m) && 0 <= t < |m.tasks| && i < |m.owner| && PoolUse(u, m.tasks[t].pid)
    ensures Pool(Allocated(m, t, i, u))
  {
  }

  lemma AllocUntouched(m: Mem, t: int, i: nat, u: Use, pid: nat)
    requires Pool(m) && 0 <= t < |m.tasks| && i < |m.owner| && m.owner[i] == 0 && PoolUse(u, m.tasks[t].pid)
    ensures var n := Allocated(m, t, i, u); Untouched(m.fs, m.us, n.fs, n.us, pid) && TargetsKept(m.us, n.us, pid)
  {
    assert m.us[m.first + i] == Free;
  }

  // ------------------------------------------------------ writes to tables

  /** A write to one word of one page. */
  function Written(m: Mem, f: nat, i: nat, w: nat): Mem
    requires f < |m.fs| && |m.fs[f]| == 4096 && i < 512
  {
    m.(fs := Put(m.fs, f, i, w))
  }

  /** A write to a table page of task `t` leaves every other space alone. */
  lemma WriteKeepsOthers(m: Mem, t: int, f: nat, i: nat, w: nat)
    requires Tabled(m) && 0 <= t < |m.tasks| && m.tasks[t].live && f < |m.fs| && i < 512 && TableOf(m.us[f], m.tasks[t].pid)
    requires |m.fs[f]| == 4096
    requires var n := Written(m, f, i, w); HasSpace(m, t) ==> Tables(n.fs, n.us, n.kernel, n.tasks[t].pid, n.tasks[t].root)
    ensures var n := Written(m, f, i, w);
            && Tabled(n)
            && Carried(m, n, t)
            && (AllLeaves(m) && (HasSpace(m, t) ==> Leaves(n.fs, n.us, n.tasks[t].pid, n.tasks[t].root)) ==> AllLeaves(n))
  {
    hide Counted, NoLeak, Tables, Translate, Leaves, PutWord;
    var n := Written(m, f, i, w);
    forall k | HasSpace(n, k) && k != t
      ensures Tables(n.fs, n.us, n.kernel, n.tasks[k].pid, n.tasks[k].root)
      ensures forall vp :: 0 <= vp < VPAGES ==> Lookup(n, k, vp) == Lookup(m, k, vp)
      ensures AllLeaves(m) ==> Leaves(n.fs, n.us, n.tasks[k].pid, n.tasks[k].root)
    {
      assert HasSpace(m, k);
      DistinctPids(m, t, k);
      SameWalk(m.fs, m.us, n.fs, n.us, m.kernel, m.tasks[k].pid, m.tasks[k].root);
      if AllLeaves(m) {
        SameLeaves(m.fs, m.us, n.fs, n.us, m.tasks[k].pid, m.tasks[k].root);
      }
    }
  }

  lemma DistinctPids(m: Mem, t: int, k: int)
    requires Accounts(m.owner, m.tasks) && 0 <= t < |m.tasks| && m.tasks[t].live && HasSpace(m, k) && k != t
    ensures m.tasks[k].pid != m.tasks[t].pid
  {
    hide Owned, NoLeak;
    if k < t {
      assert m.tasks[k].pid != 0;
    } else {
      assert m.tasks[t].pid != 0;
    }
  }

  /** The tables for the `b`-th two-megabyte region exist. */
  predicate Walked(m: Mem, t: int, b: nat) {
    HasSpace(m, t) && Present(Entry3(m.fs, m.tasks[t].root)) && Present(Entry2(m.fs, m.tasks[t].root, b))
  }

  lemma WalkInside(m: Mem, t: int, b: nat)
    requires Tabled(m) && HasSpace(m, t) && b < 512
    ensures m.tasks[t].root < |m.fs| && |m.fs[m.tasks[t].root]| == 4096
    ensures var p3 := Upper(m.fs, m.tasks[t].root); p3 < |m.fs| && |m.fs[p3]| == 4096
    ensures Present(Entry3(m.fs, m.tasks[t].root)) ==>
              var p2 := FrameOf(Entry3(m.fs, m.tasks[t].root)); p2 < |m.fs| && |m.fs[p2]| == 4096
    ensures Walked(m, t, b) ==>
              var p1 := FrameOf(Entry2(m.fs, m.tasks[t].root, b)); p1 < |m.fs| && |m.fs[p1]| == 4096
  {
    hide Accounts, Get, FrameOf, TableEntry;
    assert Tables(m.fs, m.us, m.kernel, m.tasks[t].pid, m.tasks[t].root);
    assert Links(Entry2(m.fs, m.tasks[t].root, b), m.us, Dir1(m.tasks[t].pid, b));
  }

  /** Without its tables a page is unmapped. */
  lemma UnwalkedUnmapped(m: Mem, t: int, vp: nat)
    requires Tabled(m) && HasSpace(m, t) && vp < VPAGES && !Walked(m, t, vp / 512)
    ensures Lookup(m, t, vp) == Unmapped
  {
  }

  /** Linking an empty table, as a walk that creates does. */
  lemma Link2Keeps(m: Mem, t: int, n: nat)
    requires Tabled(m) && HasSpace(m, t) && !Present(Entry3(m.fs, m.tasks[t].root))
    requires n < |m.fs| == |m.us| && m.us[n] == Dir2(m.tasks[t].pid) && AllZero(m.fs[n])
    ensures Upper(m.fs, m.tasks[t].root) < |m.fs| && |m.fs[Upper(m.fs, m.tasks[t].root)]| == 4096
    ensures var n := Written(m, Upper(m.fs, m.tasks[t].root), 1, TableEntry(n));
            && Tabled(n) && SameMaps(m, n) && (AllLeaves(m) ==> AllLeaves(n)) && Present(Entry3(n.fs, n.tasks[t].root))
            && forall b :: 0 <= b < 512 ==> !Walked(n, t, b)
  {
    hide Translate, PutWord, Accounts, Leaves, FrameOf, TableEntry;
    var pid, root := m.tasks[t].pid, m.tasks[t].root;
    LinkLevel2(m.fs, m.us, m.kernel, pid, root, n);
    TableBits(n);
    var p3 := Upper(m.fs, root);
    TopPage(m.fs, m.us, m.kernel, pid, root);
    WriteKeepsOthers(m, t, p3, 1, TableEntry(n));
    if AllLeaves(m) {
      SameLeaves(m.fs, m.us, Put(m.fs, p3, 1, TableEntry(n)), m.us, pid, root);
      assert Leaves(Put(m.fs, p3, 1, TableEntry(n)), m.us, pid, root);
    }
  }

  lemma TopPage(fs: seq<seq<byte>>, us: seq<Use>, kernel: nat, pid: nat, root: nat)
    requires Tables(fs, us, kernel, pid, root)
    ensures Upper(fs, root) < |us| && us[Upper(fs, root)] == Dir3(pid)
  {
  }

  lemma Link1Keeps(m: Mem, t: int, b: nat, n: nat)
    requires Tabled(m) && HasSpace(m, t) && Present(Entry3(m.fs, m.tasks[t].root))
    requires b < 512 && !Present(Entry2(m.fs, m.tasks[t].root, b))
    requires n < |m.fs| == |m.us| && m.us[n] == Dir1(m.tasks[t].pid, b) && AllZero(m.fs[n])
    ensures FrameOf(Entry3(m.fs, m.tasks[t].root)) < |m.fs| && |m.fs[FrameOf(Entry3(m.fs, m.tasks[t].root))]| == 4096
    ensures var n := Written(m, FrameOf(Entry3(m.fs, m.tasks[t].root)), b, TableEntry(n));
            Tabled(n) && SameMaps(m, n) && (AllLeaves(m) ==> AllLeaves(n)) && Walked(n, t, b)
  {
    hide Translate, PutWord, Accounts, Leaves, FrameOf, TableEntry, Entry2, Get;
    var pid, root := m.tasks[t].pid, m.tasks[t].root;
    LinkLevel1(m.fs, m.us, m.kernel, pid, root, b, n);
    TableBits(n);
    var p2 := FrameOf(Entry3(m.fs, root));
    WriteKeepsOthers(m, t, p2, b, TableEntry(n));
    if AllLeaves(m) {
      SameLeaves(m.fs, m.us, Put(m.fs, p2, b, TableEntry(n)), m.us, pid, root);
      assert Leaves(Put(m.fs, p2, b, TableEntry(n)), m.us, pid, root);
    }
  }

  /** Exactly one translation of exactly one space becomes `w`. */
  ghost predicate OneMapped(m: Mem, n: Mem, t: int, vp: nat, w: nat) {
    && SameTasks(m.tasks, n.tasks) && n.first == m.first && n.kernel == m.kernel && |n.fs| == |m.fs| && |n.owner| == |m.owner|
    && forall k, q :: HasSpace(m, k) && 0 <= q < VPAGES ==>
         Lookup(n, k, q) == if k == t && q == vp then Mapped(w) else Lookup(m, k, q)
  }

  lemma SetKeeps(m: Mem, t: int, vp: nat, w: nat)
    requires Tabled(m) && HasSpace(m, t) && vp < VPAGES && Present(w) && w < WORD
    requires Present(Entry3(m.fs, m.tasks[t].root)) && Present(Entry2(m.fs, m.tasks[t].root, vp / 512))
    ensures var p1 := FrameOf(Entry2(m.fs, m.tasks[t].root, vp / 512)); p1 < |m.fs| && |m.fs[p1]| == 4096
    ensures var n := Written(m, FrameOf(Entry2(m.fs, m.tasks[t].root, vp / 512)), vp % 512, w);
            && Tabled(n) && OneMapped(m, n, t, vp, w)
            && Entry3(n.fs, n.tasks[t].root) == Entry3(m.fs, m.tasks[t].root)
            && Entry2(n.fs, n.tasks[t].root, vp / 512) == Entry2(m.fs, m.tasks[t].root, vp / 512)
            && (AllLeaves(m) && LeafOk(w, m.us, m.tasks[t].pid, vp) ==> AllLeaves(n))
  {
    hide Translate, PutWord, Accounts, FrameOf, TableEntry, Entry2, Get, LeafOk;
    var pid, root := m.tasks[t].pid, m.tasks[t].root;
    SetLeaf(m.fs, m.us, m.kernel, pid, root, vp, w);
    assert Links(Entry2(m.fs, root, vp / 512), m.us, Dir1(pid, vp / 512));
    var p1 := FrameOf(Entry2(m.fs, root, vp / 512));
    WriteKeepsOthers(m, t, p1, vp % 512, w);
    if AllLeaves(m) && LeafOk(w, m.us, pid, vp) {
      assert Leaves(Put(m.fs, p1, vp % 512, w), m.us, pid, root);
    }
  }

  // ------------------------------------------------------- user addresses

  predicate InUser(v: nat) { BASE <= v < LIMIT }

  function PageOf(v: nat): (vp: nat)
    requires InUser(v)
    ensures vp < VPAGES
  {
    v / 4096 - 0x4_0000
  }

  /** The three index fields of a user address. */
  lemma Indices(v: nat)
    requires InUser(v)
    ensures v / 0x4000_0000 == 1
    ensures v / 0x20_0000 % 512 == PageOf(v) / 512
    ensures v / 4096 % 512 == PageOf(v) % 512
  {
    var p := v / 4096;
    assert v / 0x20_0000 == p / 512;
    assert p / 512 == PageOf(v) / 512 + 512;
    assert 512 <= p / 512 < 1024;
  }

  // ---------------------------------------------------------- user memory

  /** `x` is a user address backed by memory. */
  predicate Ram(m: Mem, t: int, x: nat) {
    HasSpace(m, t) && InUser(x) && Lookup(m, t, PageOf(x)).Mapped? && FrameAt(m, t, x) < |m.fs|
  }

  function FrameAt(m: Mem, t: int, x: nat): nat
    requires HasSpace(m, t) && InUser(x) && Lookup(m, t, PageOf(x)).Mapped?
  {
    FrameOf(Lookup(m, t, PageOf(x)).entry)
  }

  /** The byte a task finds at a user address. */
  function At(m: Mem, t: int, x: nat): byte
    requires Ram(m, t, x) && |m.fs[FrameAt(m, t, x)]| == 4096
  {
    m.fs[FrameAt(m, t, x)][x % 4096]
  }

  /** The kernel may copy to or from this byte on the task's behalf. */
  predicate Access(m: Mem, t: int, x: nat, write: bool) {
    && HasSpace(m, t) && InUser(x)
    && match Lookup(m, t, PageOf(x))
       case Unmapped => false
       case Mapped(w) => User(w) && !Mmio(w) && (write ==> Writable(w))
  }

  ghost predicate RangeOk(m: Mem, t: int, v: nat, n: nat, write: bool) {
    InUser(v) && v + n <= LIMIT && forall x :: v <= x < v + n ==> Access(m, t, x, write)
  }

  lemma AccessIsRam(m: Mem, t: int, x: nat, write: bool)
    requires Inv(m) && Access(m, t, x, write)
    ensures Ram(m, t, x) && |m.fs[FrameAt(m, t, x)]| == 4096
    ensures write ==> m.us[FrameAt(m, t, x)] in {Data(m.tasks[t].pid, PageOf(x)), Window(PageOf(x))}
  {
    hide Translate, FrameOf, Tables, Accounts;
    assert LeafOk(Lookup(m, t, PageOf(x)).entry, m.us, m.tasks[t].pid, PageOf(x));
  }

  /** A byte of `u` that a write to `[dst, dst + n)` by `t` reaches: its own, or a shared device window at the same address. */
  predicate Reached(m: Mem, t: int, u: int, x: nat, dst: nat, n: nat)
    requires Ram(m, u, x)
  {
    dst <= x < dst + n && (u == t || (Ram(m, t, x) && FrameAt(m, t, x) == FrameAt(m, u, x)))
  }

  /** Every user byte of every space after the write. */
  ghost predicate Copied(m: Mem, n: Mem, t: int, dst: nat, src: seq<byte>) {
    && n == m.(fs := n.fs) && |n.fs| == |m.fs|
    && SameMaps(m, n) && Inv(m) && Inv(n)
    && forall u, x: nat :: Ram(m, u, x) ==>
         && Ram(n, u, x) && |n.fs[FrameAt(n, u, x)]| == 4096
         && At(n, u, x) == if Reached(m, t, u, x, dst, |src|) then src[x - dst] else At(m, u, x)
  }

  /** Pages that are not this task's data or a device window are untouched. */
  ghost predicate OnlyData(m: Mem, n: Mem, pid: nat) {
    |n.fs| == |m.fs| == |m.us| && forall f :: 0 <= f < |m.fs| && !(m.us[f].Data? && m.us[f].pid == pid) && !m.us[f].Window? ==> n.fs[f] == m.fs[f]
  }

  function Patched(m: Mem, f: nat, off: nat, chunk: seq<byte>): (n: Mem)
    requires f < |m.fs| && |m.fs[f]| == 4096 && off + |chunk| <= 4096
    ensures |n.fs| == |m.fs| && |n.fs[f]| == 4096
    ensures forall i :: 0 <= i < 4096 ==> n.fs[f][i] == if off <= i < off + |chunk| then chunk[i - off] else m.fs[f][i]
  {
    m.(fs := m.fs[f := m.fs[f][..off] + chunk + m.fs[f][off + |chunk|..]])
  }

  /** Writing a data page changes no translation. */
  lemma PatchKeeps(m: Mem, f: nat, off: nat, chunk: seq<byte>)
    requires Inv(m) && f < |m.fs| && |m.fs[f]| == 4096 && off + |chunk| <= 4096 && (m.us[f].Data? || m.us[f].Window?)
    ensures var n := Patched(m, f, off, chunk); Inv(n) && SameMaps(m, n)
  {
    hide Translate, Accounts, Tables, Leaves;
    var n := Patched(m, f, off, chunk);
    forall k | HasSpace(n, k)
      ensures Tables(n.fs, n.us, n.kernel, n.tasks[k].pid, n.tasks[k].root)
      ensures forall vp :: 0 <= vp < VPAGES ==> Lookup(n, k, vp) == Lookup(m, k, vp)
      ensures Leaves(n.fs, n.us, n.tasks[k].pid, n.tasks[k].root)
    {
      assert HasSpace(m, k);
      SameWalk(m.fs, m.us, n.fs, n.us, m.kernel, m.tasks[k].pid, m.tasks[k].root);
      SameLeaves(m.fs, m.us, n.fs, n.us, m.tasks[k].pid, m.tasks[k].root);
    }
  }

  /** One chunk inside one page. */
  lemma PatchCopies(m: Mem, t: int, v: nat, chunk: seq<byte>)
    requires Inv(m) && Access(m, t, v, true) && v % 4096 + |chunk| <= 4096
    ensures Ram(m, t, v) && |m.fs[FrameAt(m, t, v)]| == 4096
    ensures var n := Patched(m, FrameAt(m, t, v), v % 4096, chunk); Copied(m, n, t, v, chunk) && OnlyData(m, n, m.tasks[t].pid)
  {
    hide Translate, FrameOf, Tables, Accounts, Leaves;
    AccessIsRam(m, t, v, true);
    var f := FrameAt(m, t, v);
    PatchKeeps(m, f, v % 4096, chunk);
    var n := Patched(m, f, v % 4096, chunk);
    forall u, x: nat | Ram(m, u, x)
      ensures Ram(n, u, x) && |n.fs[FrameAt(n, u, x)]| == 4096
      ensures At(n, u, x) == if Reached(m, t, u, x, v, |chunk|) then chunk[x - v] else At(m, u, x)
    {
      PatchByte(m, n, t, v, chunk, u, x);
    }
  }

  lemma PatchByte(m: Mem, n: Mem, t: int, v: nat, chunk: seq<byte>, u: int, x: nat)
    requires Inv(m) && Inv(n) && SameMaps(m, n) && Access(m, t, v, true) && v % 4096 + |chunk| <= 4096
    requires Ram(m, t, v) && |m.fs[FrameAt(m, t, v)]| == 4096 && n == Patched(m, FrameAt(m, t, v), v % 4096, chunk)
    requires Ram(m, u, x)
    ensures Ram(n, u, x) && |n.fs[FrameAt(n, u, x)]| == 4096
    ensures At(n, u, x) == if Reached(m, t, u, x, v, |chunk|) then chunk[x - v] else At(m, u, x)
  {
    hide Translate, FrameOf, Tables, Accounts, PageOf;
    AccessIsRam(m, t, v, true);
    assert Lookup(n, u, PageOf(x)) == Lookup(m, u, PageOf(x));
    var f := FrameAt(m, t, v);
    assert LeafOk(Lookup(m, u, PageOf(x)).entry, m.us, m.tasks[u].pid, PageOf(x));
    if FrameAt(m, u, x) == f {
      assert PageOf(x) == PageOf(v);
      SamePage(v, x, |chunk|);
    } else if v <= x < v + |chunk| {
      InPage(v, x, |chunk|);
    }
  }

  lemma SamePage(v: nat, x: nat, k: nat)
    requires InUser(v) && InUser(x) && PageOf(x) == PageOf(v) && v % 4096 + k <= 4096
    ensures v <= x < v + k <==> v % 4096 <= x % 4096 < v % 4096 + k
    ensures v <= x < v + k ==> x % 4096 - v % 4096 == x - v
  {
    assert x == 4096 * (x / 4096) + x % 4096 && v == 4096 * (v / 4096) + v % 4096;
  }

  lemma InPage(v: nat, x: nat, k: nat)
    requires InUser(v) && InUser(x) && v <= x < v + k && v % 4096 + k <= 4096
    ensures PageOf(x) == PageOf(v)
  {
    assert v == 4096 * (v / 4096) + v % 4096;
  }

  /** Two adjacent copies make one. */
  lemma CopiesCompose(m: Mem, n: Mem, o: Mem, t: int, dst: nat, a: seq<byte>, b: seq<byte>)
    requires Copied(m, n, t, dst, a) && Copied(n, o, t, dst + |a|, b)
    ensures Copied(m, o, t, dst, a + b)
  {
    hide Translate, FrameOf, Accounts, Spaces, AllLeaves, PageOf;
    forall k, vp | HasSpace(m, k) && 0 <= vp < VPAGES
      ensures Lookup(o, k, vp) == Lookup(m, k, vp)
    {
      assert HasSpace(n, k) && Lookup(n, k, vp) == Lookup(m, k, vp);
    }
    forall u, x: nat | Ram(m, u, x)
      ensures Ram(o, u, x) && |o.fs[FrameAt(o, u, x)]| == 4096
      ensures At(o, u, x) == if Reached(m, t, u, x, dst, |a + b|) then (a + b)[x - dst] else At(m, u, x)
    {
      assert Ram(n, u, x);
      assert FrameAt(n, u, x) == FrameAt(m, u, x);
      assert HasSpace(m, t) && InUser(x) ==> Lookup(n, t, PageOf(x)) == Lookup(m, t, PageOf(x));
    }
  }

  // ------------------------------------------------------- birth and death

  function Scrubbed(m: Mem, pid: nat): (n: Mem)
    requires Pool(m)
    ensures n.first == m.first && n.kernel == m.kernel && n.tasks == m.tasks
    ensures |n.fs| == |m.fs| && |n.us| == |m.us| && |n.owner| == |m.owner|
    ensures forall i :: 0 <= i < |m.owner| ==> n.owner[i] == if m.owner[i] == pid then 0 else m.owner[i]
    ensures forall f :: 0 <= f < |m.fs| ==> n.fs[f] == if Holds(m, f, pid) then Zeros(4096) else m.fs[f]
    ensures forall f :: 0 <= f < |m.fs| ==> n.us[f] == if Holds(m, f, pid) then Free else m.us[f]
  {
    m.(owner := seq(|m.owner|, i requires 0 <= i < |m.owner| => if m.owner[i] == pid then 0 else m.owner[i]),
       fs := seq(|m.fs|, f requires 0 <= f < |m.fs| => if Holds(m, f, pid) then Zeros(4096) else m.fs[f]),
       us := seq(|m.us|, f requires 0 <= f < |m.us| => if Holds(m, f, pid) then Free else m.us[f]))
  }

  /** Frame `f` is a pool page of `pid`. */
  predicate Holds(m: Mem, f: int, pid: nat) {
    m.first <= f < m.first + |m.owner| && m.owner[f - m.first] == pid
  }

  /** The state after task `t` died: its pages zeroed and free, nothing else. */
  function Buried(m: Mem, t: int): Mem
    requires Pool(m) && 0 <= t < |m.tasks|
  {
    Scrubbed(m, m.tasks[t].pid).(tasks := m.tasks[t := m.tasks[t].(live := false, count := 0)])
  }

  lemma BuryKeeps(m: Mem, t: int)
    requires Tabled(m) && 0 <= t < |m.tasks| && m.tasks[t].live
    ensures var n := Buried(m, t);
            && Tabled(n) && (AllLeaves(m) ==> AllLeaves(n))
            && Carried(m, n, t)
  {
    hide Accounts, Tables, Translate, Leaves, Scrubbed;
    var n := Buried(m, t);
    AccountsPid(m.owner, m.tasks, t);
    BuryAccounts(m, t);
    assert Pool(n);
    forall k | HasSpace(n, k)
      ensures Tables(n.fs, n.us, n.kernel, n.tasks[k].pid, n.tasks[k].root)
      ensures forall vp :: 0 <= vp < VPAGES ==> Lookup(n, k, vp) == Lookup(m, k, vp)
      ensures AllLeaves(m) ==> Leaves(n.fs, n.us, n.tasks[k].pid, n.tasks[k].root)
    {
      assert k != t && HasSpace(m, k);
      DistinctPids(m, t, k);
      SameWalk(m.fs, m.us, n.fs, n.us, m.kernel, m.tasks[k].pid, m.tasks[k].root);
      if AllLeaves(m) {
        SameLeaves(m.fs, m.us, n.fs, n.us, m.tasks[k].pid, m.tasks[k].root);
      }
    }
  }

  lemma BuryAccounts(m: Mem, t: int)
    requires Pool(m) && Accounts(m.owner, m.tasks) && 0 <= t < |m.tasks| && m.tasks[t].live
    ensures var n := Buried(m, t); Accounts(n.owner, n.tasks)
  {
    hide Owned, Scrubbed, Pool, Holds;
    var n, pid := Buried(m, t), m.tasks[t].pid;
    forall k | 0 <= k < |n.tasks| && n.tasks[k].live
      ensures 0 < n.tasks[k].pid <= PID_MAX && n.tasks[k].count == Owned(n.owner, n.tasks[k].pid) <= n.tasks[k].limit
    {
      assert m.tasks[k].pid != pid;
      OwnedSame(m.owner, n.owner, m.tasks[k].pid);
    }
    forall i | 0 <= i < |n.owner| && n.owner[i] != 0
      ensures Alive(n.tasks, n.owner[i])
    {
      assert Alive(m.tasks, m.owner[i]);
      var j :| 0 <= j < |m.tasks| && m.tasks[j].live && m.tasks[j].pid == m.owner[i];
      assert n.tasks[j].live && n.tasks[j].pid == n.owner[i];
    }
  }

  /** A slot given to a new task with an unused pid. */
  function Born(m: Mem, t: int, pid: nat, limit: nat): Mem
    requires 0 <= t < |m.tasks|
  {
    m.(tasks := m.tasks[t := Holder(pid, true, limit, 0, 0)])
  }

  lemma BirthKeeps(m: Mem, t: int, pid: nat, limit: nat)
    requires Tabled(m) && 0 <= t < |m.tasks| && !m.tasks[t].live && 0 < pid <= PID_MAX
    requires forall k :: 0 <= k < |m.tasks| ==> m.tasks[k].pid != pid
    ensures var n := Born(m, t, pid, limit);
            && Tabled(n) && (AllLeaves(m) ==> AllLeaves(n)) && (forall i :: 0 <= i < |m.owner| ==> m.owner[i] != pid)
  {
    hide Owned, Tables, Leaves;
    var n := Born(m, t, pid, limit);
    forall i | 0 <= i < |m.owner|
      ensures m.owner[i] != pid && (m.owner[i] != 0 ==> Alive(n.tasks, m.owner[i]))
    {
      if m.owner[i] != 0 {
        assert Alive(m.tasks, m.owner[i]);
        var j :| 0 <= j < |m.tasks| && m.tasks[j].live && m.tasks[j].pid == m.owner[i];
        assert n.tasks[j].live && n.tasks[j].pid == m.owner[i];
      }
    }
    OwnedNone(m.owner, pid);
    assert Pool(n);
    forall k | HasSpace(n, k)
      ensures Tables(n.fs, n.us, n.kernel, n.tasks[k].pid, n.tasks[k].root)
      ensures AllLeaves(m) ==> Leaves(n.fs, n.us, n.tasks[k].pid, n.tasks[k].root)
    {
      assert HasSpace(m, k);
    }
  }

  /** A new space: a root whose only link is an upper table that maps the kernel and no user page. */
  lemma SpaceBorn(fs: seq<seq<byte>>, us: seq<Use>, kernel: nat, pid: nat, root: nat, p3: nat)
    requires Sized(fs, us) && root < |fs| && p3 < |fs| && us[root] == Root(pid) && us[p3] == Dir3(pid)
    requires Get(fs, root, 0) == TableEntry(p3) && Get(fs, p3, 0) == kernel && Get(fs, p3, 1) == 0
    ensures Tables(fs, us, kernel, pid, root)
    ensures forall vp :: 0 <= vp < VPAGES ==> Translate(fs, root, vp) == Unmapped
  {
    hide Get, FrameOf;
    TableBits(p3);
  }

  function Rooted(m: Mem, t: int, root: nat): Mem
    requires 0 <= t < |m.tasks|
  {
    m.(tasks := m.tasks[t := m.tasks[t].(root := root)])
  }

  lemma RootKeeps(m: Mem, t: int, root: nat)
    requires Tabled(m) && 0 <= t < |m.tasks| && m.tasks[t].live && m.tasks[t].root == 0
    requires Tables(m.fs, m.us, m.kernel, m.tasks[t].pid, root)
    requires forall vp :: 0 <= vp < VPAGES ==> Translate(m.fs, root, vp) == Unmapped
    ensures var n := Rooted(m, t, root); Tabled(n) && Carried(m, n, t) && (AllLeaves(m) ==> AllLeaves(n))
  {
    hide Owned, Tables, Translate, LeafOk;
    var n := Rooted(m, t, root);
    forall i | 0 <= i < |m.owner| && m.owner[i] != 0
      ensures Alive(n.tasks, m.owner[i])
    {
      assert Alive(m.tasks, m.owner[i]);
      var j :| 0 <= j < |m.tasks| && m.tasks[j].live && m.tasks[j].pid == m.owner[i];
      assert n.tasks[j].live && n.tasks[j].pid == m.owner[i];
    }
    assert Pool(n);
    forall k | HasSpace(n, k)
      ensures Tables(n.fs, n.us, n.kernel, n.tasks[k].pid, n.tasks[k].root)
      ensures AllLeaves(m) ==> Leaves(n.fs, n.us, n.tasks[k].pid, n.tasks[k].root)
    {
      assert k != t ==> HasSpace(m, k);
    }
  }

  /** A new page limit no lower than the pages in use. */
  lemma LimitKeeps(m: Mem, t: int, limit: nat)
    requires Tabled(m) && 0 <= t < |m.tasks| && m.tasks[t].live && m.tasks[t].count <= limit
    ensures var n := m.(tasks := m.tasks[t := m.tasks[t].(limit := limit)]); Tabled(n) && (AllLeaves(m) ==> AllLeaves(n))
  {
    hide Owned, Tables, Leaves;
    var n := m.(tasks := m.tasks[t := m.tasks[t].(limit := limit)]);
    forall i | 0 <= i < |m.owner| && m.owner[i] != 0
      ensures Alive(n.tasks, m.owner[i])
    {
      assert Alive(m.tasks, m.owner[i]);
      var j :| 0 <= j < |m.tasks| && m.tasks[j].live && m.tasks[j].pid == m.owner[i];
      assert n.tasks[j].live && n.tasks[j].pid == m.owner[i];
    }
    assert Pool(n);
    forall k | HasSpace(n, k)
      ensures Tables(n.fs, n.us, n.kernel, n.tasks[k].pid, n.tasks[k].root)
      ensures AllLeaves(m) ==> Leaves(n.fs, n.us, n.tasks[k].pid, n.tasks[k].root)
    {
      assert HasSpace(m, k);
    }
  }
}
