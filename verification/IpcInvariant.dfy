/** What every reachable state of the IPC tables satisfies. */
module IpcInvariant {
  import opened Ipc

  predicate CapValid(k: Kernel, c: Cap) {
    && 1 <= c.endpoint <= |k.endpoints|
    && k.endpoints[c.endpoint - 1].owner != 0 && c.epoch == k.endpoints[c.endpoint - 1].epoch
  }

  /** Every capability refers to a live endpoint of its own epoch. */
  ghost predicate CapsValid(k: Kernel)
    requires Shape(k)
  {
    forall j, s :: 0 <= j < |k.tasks| && 0 <= s < CAPS && k.tasks[j].caps[s].endpoint != 0 ==> CapValid(k, k.tasks[j].caps[s])
  }

  /** Every live endpoint (but possibly `skip`) has a capability. */
  ghost predicate AllReferenced(k: Kernel, skip: int) {
    forall i: nat :: i < |k.endpoints| && i != skip && k.endpoints[i].owner != 0 ==> Referenced(k, i + 1)
  }

  predicate OwnedBy(k: Kernel, i: nat, j: nat) {
    i < |k.endpoints| && j < |k.tasks| && Live(k.tasks[j]) && k.tasks[j].pid == k.endpoints[i].owner
  }

  ghost predicate OwnersLive(k: Kernel) {
    forall i: nat :: i < |k.endpoints| && k.endpoints[i].owner != 0 ==> exists j: nat :: OwnedBy(k, i, j)
  }

  predicate Receiving(c: Cap, ep: nat) { c.endpoint == ep && RECV in c.rights }

  ghost predicate WaiterOk(k: Kernel, t: Task) {
    && 1 <= t.wait <= |k.endpoints| && k.endpoints[t.wait - 1].count == 0
    && exists s :: 0 <= s < |t.caps| && Receiving(t.caps[s], t.wait)
  }

  /** Every blocked task (but possibly `x`) holds a RECV right on an empty queue. */
  ghost predicate WaitersOk(k: Kernel, x: int) {
    forall j :: 0 <= j < |k.tasks| && j != x && k.tasks[j].state.Blocked? ==> WaiterOk(k, k.tasks[j])
  }

  ghost predicate NoCaps(t: Task) {
    forall s :: 0 <= s < |t.caps| ==> t.caps[s].endpoint == 0
  }

  ghost predicate VacantClean(k: Kernel, x: int) {
    forall j :: 0 <= j < |k.tasks| && j != x && Vacant(k.tasks[j]) ==> NoCaps(k.tasks[j])
  }

  ghost predicate PidsOk(k: Kernel) {
    && (forall j :: 0 <= j < |k.tasks| && k.tasks[j].pid != 0 ==> k.tasks[j].pid < k.nextPid)
    && (forall j :: 0 <= j < |k.tasks| && Live(k.tasks[j]) ==> k.tasks[j].pid != 0)
    && (forall i, j :: 0 <= i < j < |k.tasks| && k.tasks[i].pid != 0 ==> k.tasks[i].pid != k.tasks[j].pid)
  }

  ghost predicate WithinLimits(k: Kernel) {
    forall j :: 0 <= j < |k.tasks| ==> Used(k.tasks[j].caps) <= k.tasks[j].limit <= CAPS
  }

  /** The invariant, with an endpoint and a task exempted while an operation is under way. */
  ghost predicate Core(k: Kernel, x: int, skip: int) {
    && Shape(k) && CapsValid(k) && AllReferenced(k, skip) && OwnersLive(k)
    && WaitersOk(k, x) && VacantClean(k, x) && PidsOk(k) && WithinLimits(k)
  }

  ghost predicate Inv(k: Kernel) { Core(k, -1, -1) }

  // -------------------------------------------------------------- counting

  lemma {:induction false} UsedUpdate(caps: seq<Cap>, s: nat, c: Cap)
    requires s < |caps|
    ensures Used(caps[s := c]) ==
            Used(caps) - (if caps[s].endpoint != 0 then 1 else 0) + (if c.endpoint != 0 then 1 else 0)
  {
    if s > 0 {
      UsedUpdate(caps[1..], s - 1, c);
      assert caps[s := c][1..] == caps[1..][s - 1 := c];
    } else {
      assert caps[s := c][1..] == caps[1..];
    }
  }

  lemma {:induction false} UsedCleared(caps: seq<Cap>, ep: nat)
    ensures Used(Cleared(caps, ep)) <= Used(caps)
  {
    if caps != [] {
      UsedCleared(caps[1..], ep);
      assert Cleared(caps, ep)[1..] == Cleared(caps[1..], ep);
    }
  }

  lemma {:induction false} UsedNone(caps: seq<Cap>)
    requires forall s :: 0 <= s < |caps| ==> caps[s].endpoint == 0
    ensures Used(caps) == 0
  {
    if caps != [] {
      UsedNone(caps[1..]);
    }
  }

  // ------------------------------------------------------------ invalidate

  lemma InvalidateRefs(k: Kernel, i: nat, n: nat)
    requires i < |k.endpoints| && n != i && Referenced(k, n + 1)
    ensures Referenced(Invalidate(k, i), n + 1)
  {
    var j: nat, s: nat :| j < |k.tasks| && s < |k.tasks[j].caps| && RefAt(k, j, s, n + 1);
    assert RefAt(Invalidate(k, i), j, s, n + 1);
  }

  lemma InvalidateWaiters(k: Kernel, i: nat, x: int)
    requires Shape(k) && i < |k.endpoints| && WaitersOk(k, x)
    ensures WaitersOk(Invalidate(k, i), x)
  {
    var r := Invalidate(k, i);
    forall j | 0 <= j < |r.tasks| && j != x && r.tasks[j].state.Blocked?
      ensures WaiterOk(r, r.tasks[j])
    {
      var t := k.tasks[j];
      assert WaiterOk(k, t) && t.wait != i + 1;
      var s :| 0 <= s < |t.caps| && Receiving(t.caps[s], t.wait);
      assert Receiving(r.tasks[j].caps[s], t.wait);
    }
  }

  lemma InvalidateKeeps(k: Kernel, i: nat, x: int)
    requires Core(k, x, i) && i < |k.endpoints|
    ensures Core(Invalidate(k, i), x, -1)
  {
    hide Referenced, Used, WaitersOk;
    var r := Invalidate(k, i);
    InvalidateShape(k, i);
    InvalidateWaiters(k, i, x);
    forall n: nat | n < |r.endpoints| && r.endpoints[n].owner != 0
      ensures Referenced(r, n + 1)
      ensures exists j: nat :: OwnedBy(r, n, j)
    {
      InvalidateRefs(k, i, n);
      var j: nat :| OwnedBy(k, n, j);
      assert OwnedBy(r, n, j);
    }
    forall j | 0 <= j < |r.tasks|
      ensures Used(r.tasks[j].caps) <= r.tasks[j].limit
    {
      UsedCleared(k.tasks[j].caps, i + 1);
    }
  }

  // --------------------------------------------------------- close and install

  /** Emptying one slot loses at most the references of its own endpoint. */
  lemma DropKeeps(k: Kernel, t: nat, slot: nat, x: int)
    requires Core(k, x, -1) && t < |k.tasks| && slot < CAPS && k.tasks[t].caps[slot].endpoint != 0
    requires t == x || k.tasks[t].state.Ready?
    ensures var c := k.tasks[t].caps[slot];
            Core(SetCap(k, t, slot, c.(endpoint := 0)), x, c.endpoint - 1)
  {
    hide Referenced, Used, WaiterOk, OwnersLive, PidsOk;
    var c := k.tasks[t].caps[slot];
    var r := SetCap(k, t, slot, c.(endpoint := 0));
    CapKeepsTasks(k, t, slot, c.(endpoint := 0));
    UsedUpdate(k.tasks[t].caps, slot, c.(endpoint := 0));
    forall n: nat | n < |r.endpoints| && n != c.endpoint - 1 && r.endpoints[n].owner != 0
      ensures Referenced(r, n + 1)
    {
      DropRefs(k, t, slot, n);
    }
    forall j | 0 <= j < |r.tasks| && j != x && r.tasks[j].state.Blocked?
      ensures WaiterOk(r, r.tasks[j])
    {
      WaiterFrame(k, r, k.tasks[j]);
    }
  }

  /** Writing one capability changes no task's identity or state. */
  lemma CapKeepsTasks(k: Kernel, t: nat, slot: nat, c: Cap)
    requires Shape(k) && OwnersLive(k) && PidsOk(k) && t < |k.tasks| && slot < CAPS
    ensures OwnersLive(SetCap(k, t, slot, c)) && PidsOk(SetCap(k, t, slot, c))
  {
    var r := SetCap(k, t, slot, c);
    forall n: nat | n < |r.endpoints| && r.endpoints[n].owner != 0
      ensures exists j: nat :: OwnedBy(r, n, j)
    {
      var j: nat :| OwnedBy(k, n, j);
      assert OwnedBy(r, n, j);
    }
  }

  lemma DropRefs(k: Kernel, t: nat, slot: nat, n: nat)
    requires Shape(k) && t < |k.tasks| && slot < CAPS && k.tasks[t].caps[slot].endpoint != n + 1 && Referenced(k, n + 1)
    ensures Referenced(SetCap(k, t, slot, k.tasks[t].caps[slot].(endpoint := 0)), n + 1)
  {
    var j: nat, s: nat :| j < |k.tasks| && s < |k.tasks[j].caps| && RefAt(k, j, s, n + 1);
    assert RefAt(SetCap(k, t, slot, k.tasks[t].caps[slot].(endpoint := 0)), j, s, n + 1);
  }

  lemma WaiterFrame(k: Kernel, r: Kernel, t: Task)
    requires WaiterOk(k, t) && |r.endpoints| == |k.endpoints|
    requires forall i :: 0 <= i < |k.endpoints| && i + 1 == t.wait && k.endpoints[i].count == 0 ==> r.endpoints[i].count == 0
    ensures WaiterOk(r, t)
  {
  }

  lemma CloseCapKeeps(k: Kernel, t: nat, slot: nat, x: int)
    requires Core(k, x, -1) && t < |k.tasks| && slot < CAPS && k.tasks[t].caps[slot].endpoint != 0
    requires t == x || k.tasks[t].state.Ready?
    ensures k.tasks[t].caps[slot].endpoint <= |k.endpoints|
    ensures Core(CloseCap(k, t, slot), x, -1)
  {
    hide Referenced, Used, WaitersOk, VacantClean, PidsOk, WithinLimits, OwnersLive;
    var c := k.tasks[t].caps[slot];
    DropKeeps(k, t, slot, x);
    var dropped := SetCap(k, t, slot, c.(endpoint := 0));
    if !Referenced(dropped, c.endpoint) {
      InvalidateKeeps(dropped, c.endpoint - 1, x);
    }
  }

  /** A new capability to a live endpoint keeps everything, and counts as its reference. */
  lemma InstallKeeps(k: Kernel, t: nat, ep: nat, rights: set<Right>, x: int, skip: int)
    requires Core(k, x, skip) && t < |k.tasks| && ep < |k.endpoints| && k.endpoints[ep].owner != 0
    requires skip == -1 || skip == ep
    requires t == x || Live(k.tasks[t])
    ensures Core(Install(k, t, ep, rights).0, x, if Install(k, t, ep, rights).1.Some? then -1 else skip)
  {
    hide Referenced, Used, WaiterOk, FirstFree, OwnersLive, PidsOk;
    var r := Install(k, t, ep, rights).0;
    if Install(k, t, ep, rights).1.Some? {
      var slot := CapSlot(k.tasks[t]).value;
      UsedUpdate(k.tasks[t].caps, slot, r.tasks[t].caps[slot]);
      CapKeepsTasks(k, t, slot, r.tasks[t].caps[slot]);
      forall n: nat | n < |r.endpoints| && r.endpoints[n].owner != 0
        ensures Referenced(r, n + 1)
      {
        InstallRefs(k, t, slot, r.tasks[t].caps[slot], n);
      }
      forall j | 0 <= j < |r.tasks| && j != x && r.tasks[j].state.Blocked?
        ensures WaiterOk(r, r.tasks[j])
      {
        InstallWaiter(k, t, slot, r.tasks[t].caps[slot], j);
      }
    }
  }

  lemma InstallRefs(k: Kernel, t: nat, slot: nat, c: Cap, n: nat)
    requires Shape(k) && t < |k.tasks| && slot < CAPS && k.tasks[t].caps[slot].endpoint == 0
    requires c.endpoint == n + 1 || Referenced(k, n + 1)
    ensures Referenced(SetCap(k, t, slot, c), n + 1)
  {
    var r := SetCap(k, t, slot, c);
    if c.endpoint == n + 1 {
      assert RefAt(r, t, slot, n + 1);
    } else {
      var j: nat, s: nat :| j < |k.tasks| && s < |k.tasks[j].caps| && RefAt(k, j, s, n + 1);
      assert RefAt(r, j, s, n + 1);
    }
  }

  lemma InstallWaiter(k: Kernel, t: nat, slot: nat, c: Cap, j: nat)
    requires Shape(k) && t < |k.tasks| && j < |k.tasks| && slot < CAPS && k.tasks[t].caps[slot].endpoint == 0
    requires WaiterOk(k, k.tasks[j])
    ensures WaiterOk(SetCap(k, t, slot, c), SetCap(k, t, slot, c).tasks[j])
  {
    var s :| 0 <= s < |k.tasks[j].caps| && Receiving(k.tasks[j].caps[s], k.tasks[j].wait);
    assert Receiving(SetCap(k, t, slot, c).tasks[j].caps[s], k.tasks[j].wait);
  }

  // ------------------------------------------------------------ death

  /** Ending endpoints keeps the invariant and leaves none owned by `pid`. */
  lemma {:induction false} EndOwnedKeeps(k: Kernel, pid: nat, n: nat, x: int)
    requires Core(k, x, -1) && n <= |k.endpoints|
    ensures Core(EndOwned(k, pid, n), x, -1)
    ensures forall i :: 0 <= i < n ==> EndOwned(k, pid, n).endpoints[i].owner == 0 || EndOwned(k, pid, n).endpoints[i].owner != pid
    ensures SameTasks(k, EndOwned(k, pid, n))
    decreases n
  {
    hide Core, Invalidate;
    if n > 0 {
      EndOwnedKeeps(k, pid, n - 1, x);
      var b := EndOwned(k, pid, n - 1);
      if b.endpoints[n - 1].owner == pid {
        SkipMore(b, x, n - 1);
        InvalidateKeeps(b, n - 1, x);
        InvalidateFrame(b, n - 1);
      }
    } else {
      Reflexive(k);
    }
  }

  lemma SkipMore(k: Kernel, x: int, skip: int)
    requires Core(k, x, -1)
    ensures Core(k, x, skip)
  {
    hide Referenced, Used, WaitersOk, VacantClean, PidsOk, WithinLimits, OwnersLive, CapsValid;
  }

  /** Identities, limits and liveness are kept; slots only lose endpoints. */
  ghost predicate SameTasks(k: Kernel, r: Kernel) {
    && |r.tasks| == |k.tasks| && |r.endpoints| == |k.endpoints| && r.nextPid == k.nextPid
    && (forall j :: 0 <= j < |k.tasks| ==> SameTask(k.tasks[j], r.tasks[j]))
    && (forall i :: 0 <= i < |k.endpoints| ==> r.endpoints[i] == k.endpoints[i] || r.endpoints[i].owner == 0)
  }

  ghost predicate SameTask(t: Task, u: Task) {
    && u.pid == t.pid && u.limit == t.limit && |u.caps| == |t.caps|
    && (u.state == t.state || (t.state.Blocked? && u.state.Ready?))
    && forall s :: 0 <= s < |t.caps| ==> u.caps[s] == t.caps[s] || u.caps[s] == t.caps[s].(endpoint := 0)
  }

  lemma Reflexive(k: Kernel)
    ensures SameTasks(k, k)
  {
  }

  lemma SameTransitive(a: Kernel, b: Kernel, c: Kernel)
    requires SameTasks(a, b) && SameTasks(b, c)
    ensures SameTasks(a, c)
  {
    forall j | 0 <= j < |a.tasks|
      ensures SameTask(a.tasks[j], c.tasks[j])
    {
      assert SameTask(a.tasks[j], b.tasks[j]) && SameTask(b.tasks[j], c.tasks[j]);
    }
  }

  lemma InvalidateFrame(k: Kernel, i: nat)
    requires i < |k.endpoints|
    ensures SameTasks(k, Invalidate(k, i))
    ensures Invalidate(k, i).endpoints[i].owner == 0
    ensures forall n :: 0 <= n < |k.endpoints| && n != i ==> Invalidate(k, i).endpoints[n] == k.endpoints[n]
  {
  }

  lemma CloseCapFrame(k: Kernel, t: nat, slot: nat)
    requires Shape(k) && t < |k.tasks| && slot < CAPS && 1 <= k.tasks[t].caps[slot].endpoint <= |k.endpoints|
    ensures SameTasks(k, CloseCap(k, t, slot))
    ensures CloseCap(k, t, slot).tasks[t].caps[slot].endpoint == 0
  {
    hide Referenced;
    var c := k.tasks[t].caps[slot];
    var dropped := SetCap(k, t, slot, c.(endpoint := 0));
    assert SameTasks(k, dropped);
    InvalidateFrame(dropped, c.endpoint - 1);
    SameTransitive(k, dropped, Invalidate(dropped, c.endpoint - 1));
    assert SameTask(dropped.tasks[t], Invalidate(dropped, c.endpoint - 1).tasks[t]);
  }

  lemma {:induction false} DropCapsKeeps(k: Kernel, t: nat, n: nat)
    requires Core(k, t, -1) && t < |k.tasks| && n <= CAPS
    ensures Core(DropCaps(k, t, n), t, -1)
    ensures SameTasks(k, DropCaps(k, t, n))
    ensures forall s :: 0 <= s < n ==> DropCaps(k, t, n).tasks[t].caps[s].endpoint == 0
    decreases n
  {
    hide CloseCap, AllReferenced, OwnersLive, WaitersOk, VacantClean, PidsOk, WithinLimits;
    if n > 0 {
      DropCapsKeeps(k, t, n - 1);
      var b := DropCaps(k, t, n - 1);
      var ep := b.tasks[t].caps[n - 1].endpoint;
      if ep != 0 {
        CloseCapKeeps(b, t, n - 1, t);
        CloseCapFrame(b, t, n - 1);
        SameTransitive(k, b, CloseCap(b, t, n - 1));
        assert SameTask(b.tasks[t], CloseCap(b, t, n - 1).tasks[t]);
      }
    } else {
      Reflexive(k);
    }
  }

  lemma DeadKeeps(k: Kernel, t: nat)
    requires Core(k, t, -1) && t < |k.tasks|
    ensures Inv(TaskDead(k, t)) && TaskDead(k, t).nextPid == k.nextPid
    ensures SameTasks(k, Cleanup(k, t))
  {
    hide Core, EndOwned, DropCaps;
    CoreShape(k, t);
    var pid := k.tasks[t].pid;
    EndOwnedKeeps(k, pid, |k.endpoints|, t);
    var ended := EndOwned(k, pid, |k.endpoints|);
    EndOwnedShape(k, pid, |k.endpoints|);
    DropCapsKeeps(ended, t, CAPS);
    var clean := DropCaps(ended, t, CAPS);
    SameTransitive(k, ended, clean);
    assert SameTask(k.tasks[t], clean.tasks[t]);
    BuryKeeps(clean, t, pid);
  }

  lemma CoreShape(k: Kernel, x: int)
    requires Core(k, x, -1)
    ensures Shape(k)
  {
  }

  /** A task with no capabilities and no endpoints can be marked dead. */
  lemma BuryKeeps(k: Kernel, t: nat, pid: nat)
    requires Core(k, t, -1) && t < |k.tasks| && NoCaps(k.tasks[t]) && k.tasks[t].pid == pid
    requires forall i :: 0 <= i < |k.endpoints| ==> k.endpoints[i].owner == 0 || k.endpoints[i].owner != pid
    ensures Inv(k.(tasks := k.tasks[t := k.tasks[t].(state := Dead)]))
  {
    hide Referenced, Used, WaiterOk;
    var r := k.(tasks := k.tasks[t := k.tasks[t].(state := Dead)]);
    forall n: nat | n < |r.endpoints| && r.endpoints[n].owner != 0
      ensures Referenced(r, n + 1)
      ensures exists j: nat :: OwnedBy(r, n, j)
    {
      SameCapsRefs(k, r, n + 1);
      var j: nat :| OwnedBy(k, n, j);
      assert OwnedBy(r, n, j);
    }
    forall j | 0 <= j < |r.tasks| && r.tasks[j].state.Blocked?
      ensures WaiterOk(r, r.tasks[j])
    {
      WaiterFrame(k, r, k.tasks[j]);
    }
  }

  lemma SameCapsRefs(k: Kernel, r: Kernel, ep: nat)
    requires |r.tasks| == |k.tasks| && Referenced(k, ep)
    requires forall j, s :: 0 <= j < |k.tasks| && 0 <= s < |k.tasks[j].caps| && k.tasks[j].caps[s].endpoint == ep ==>
               s < |r.tasks[j].caps| && r.tasks[j].caps[s].endpoint == ep
    ensures Referenced(r, ep)
  {
    var j: nat, s: nat :| j < |k.tasks| && s < |k.tasks[j].caps| && RefAt(k, j, s, ep);
    assert RefAt(r, j, s, ep);
  }

  /** Same task, apart from how it waits and a limit it fits in. */
  ghost predicate MildTask(t: Task, u: Task) {
    u.pid == t.pid && u.caps == t.caps && Live(u) == Live(t) && Used(u.caps) <= u.limit <= CAPS
  }

  ghost predicate MildEndpoint(e: Endpoint, f: Endpoint) {
    f.owner == e.owner && f.epoch == e.epoch && RingOk(f)
  }

  /** Changes that touch neither capabilities nor ownership only have to respect waiters. */
  lemma MildKeeps(k: Kernel, r: Kernel, x: int)
    requires Core(k, x, -1) && |r.tasks| == |k.tasks| && |r.endpoints| == |k.endpoints| && r.nextPid == k.nextPid
    requires forall j :: 0 <= j < |k.tasks| ==> MildTask(k.tasks[j], r.tasks[j])
    requires forall i :: 0 <= i < |k.endpoints| ==> MildEndpoint(k.endpoints[i], r.endpoints[i])
    requires WaitersOk(r, x)
    ensures Core(r, x, -1)
  {
    hide Referenced, Used, WaitersOk;
    forall n: nat | n < |r.endpoints| && r.endpoints[n].owner != 0
      ensures Referenced(r, n + 1)
      ensures exists j: nat :: OwnedBy(r, n, j)
    {
      assert MildEndpoint(k.endpoints[n], r.endpoints[n]);
      SameCapsRefs(k, r, n + 1);
      var j: nat :| OwnedBy(k, n, j);
      assert MildTask(k.tasks[j], r.tasks[j]) && OwnedBy(r, n, j);
    }
    MildCaps(k, r);
    MildPids(k, r, x);
  }

  lemma MildCaps(k: Kernel, r: Kernel)
    requires Shape(k) && CapsValid(k) && |r.tasks| == |k.tasks| && |r.endpoints| == |k.endpoints|
    requires forall j :: 0 <= j < |k.tasks| ==> MildTask(k.tasks[j], r.tasks[j])
    requires forall i :: 0 <= i < |k.endpoints| ==> MildEndpoint(k.endpoints[i], r.endpoints[i])
    ensures Shape(r) && CapsValid(r)
  {
    hide Used, RingOk;
    forall j, s | 0 <= j < |r.tasks| && 0 <= s < CAPS && r.tasks[j].caps[s].endpoint != 0
      ensures CapValid(r, r.tasks[j].caps[s])
    {
      assert MildTask(k.tasks[j], r.tasks[j]);
      assert CapValid(k, k.tasks[j].caps[s]);
    }
  }

  lemma MildPids(k: Kernel, r: Kernel, x: int)
    requires PidsOk(k) && VacantClean(k, x) && |r.tasks| == |k.tasks| && r.nextPid == k.nextPid
    requires forall j :: 0 <= j < |k.tasks| ==> MildTask(k.tasks[j], r.tasks[j])
    ensures PidsOk(r) && VacantClean(r, x) && WithinLimits(r)
  {
    hide Used;
    forall j | 0 <= j < |r.tasks| && j != x && Vacant(r.tasks[j])
      ensures NoCaps(r.tasks[j])
    {
      assert MildTask(k.tasks[j], r.tasks[j]);
    }
  }

  /** Exempting a task only weakens the invariant. */
  lemma Exempt(k: Kernel, x: int)
    requires Inv(k)
    ensures Core(k, x, -1)
  {
    hide Referenced, Used, WaiterOk, PidsOk, WithinLimits, OwnersLive, CapsValid;
  }
}
